// The packets on the wire, built byte by byte from what they say (sections 5.4.1 to 5.4.4,
// 7.7.3, 7.7.5 and 7.7.35 of the Bluetooth Core Specification, Vol 4 Part E), and what the
// transport does with each of them.
module Wire {
  import opened Wrappers
  import opened Hci

  // Numbers of 16 bits travel low byte first.
  function TwoBytes(n: nat): Packet
    requires n < 65536
  {
    [n % 256, n / 256]
  }

  // The first two bytes of a data packet: the handle, and four flag bits above it.
  function HandleField(handle: nat, flags: nat): Packet
    requires handle < 4096 && flags < 16
  {
    [handle % 256, handle / 256 + 16 * flags]
  }

  // What arrives from the controller.
  datatype Unit =
    | AclData(handle: nat, flags: nat, data: Packet)
    | ScoData(handle: nat, flags: nat, data: Packet)
    | Event(code: Byte, parameters: Packet)

  predicate Fits(u: Unit) {
    match u
    case AclData(handle, flags, data) => handle < 4096 && flags < 16 && |data| <= 4092
    case ScoData(handle, flags, data) => handle < 4096 && flags < 16 && |data| <= 255
    case Event(_, parameters) => |parameters| <= 255
  }

  function KindOf(u: Unit): Byte {
    match u case AclData(_, _, _) => 2 case ScoData(_, _, _) => 3 case Event(_, _) => 4
  }

  function Bytes(u: Unit): Packet
    requires Fits(u)
  {
    match u
    case AclData(handle, flags, data) => HandleField(handle, flags) + TwoBytes(|data|) + data
    case ScoData(handle, flags, data) => HandleField(handle, flags) + [|data|] + data
    case Event(code, parameters) => [code, |parameters|] + parameters
  }

  // Packets of one kind; synchronous ones are of the current link.
  predicate Belongs(kind: Byte, sco: Option<nat>, u: Unit) {
    Fits(u) && KindOf(u) == kind && (u.ScoData? ==> sco == Some(u.handle))
  }

  predicate Stream(kind: Byte, sco: Option<nat>, us: seq<Unit>) {
    forall i :: 0 <= i < |us| ==> Belongs(kind, sco, us[i])
  }

  function Encoded(kind: Byte, sco: Option<nat>, us: seq<Unit>): (r: seq<Packet>)
    requires Stream(kind, sco, us)
    ensures |r| == |us|
  {
    seq(|us|, i requires 0 <= i < |us| => Bytes(us[i]))
  }

  lemma HandleOfField(handle: nat, flags: nat, rest: Packet)
    requires handle < 4096 && flags < 16
    ensures Handle(HandleField(handle, flags) + rest) == handle
  {
    var p := HandleField(handle, flags) + rest;
    assert Word(p[0], p[1]) == handle + 4096 * flags;
    LowTwelve(handle, flags);
  }

  lemma LowTwelve(low: nat, high: nat)
    requires low < 4096
    ensures (low + 4096 * high) % 4096 == low
  {
  }

  lemma FieldOfHandle(lo: Byte, hi: Byte)
    ensures var h := (lo + 256 * hi) % 4096; HandleField(h, hi / 16) == [lo, hi]
  {
    var low := hi % 16;
    assert lo + 256 * hi == (lo + 256 * low) + 4096 * (hi / 16);
    LowTwelve(lo + 256 * low, hi / 16);
    LowEight(lo, low);
  }

  lemma LowEight(low: nat, high: nat)
    requires low < 256
    ensures (low + 256 * high) % 256 == low && (low + 256 * high) / 256 == high
  {
  }

  lemma TwoBytesOfWord(lo: Byte, hi: Byte)
    ensures TwoBytes(Word(lo, hi)) == [lo, hi]
  {
    LowEight(lo, hi);
  }

  lemma SplitField(lo: Byte, hi: Byte) returns (handle: nat, flags: nat)
    ensures handle < 4096 && flags < 16 && HandleField(handle, flags) == [lo, hi]
  {
    FieldOfHandle(lo, hi);
    handle, flags := (lo + 256 * hi) % 4096, hi / 16;
  }

  // The reassembler's packets are exactly those that can be built.
  lemma BuiltIsWhole(kind: Byte, sco: Option<nat>, u: Unit)
    requires Framed(kind) && Belongs(kind, sco, u)
    ensures WholePacket(kind, sco, Bytes(u))
  {
    match u
    case AclData(handle, flags, data) =>
      assert Word(|data| % 256, |data| / 256) == |data|;
    case ScoData(handle, flags, data) =>
      HandleOfField(handle, flags, [|data|] + data);
      assert Bytes(u) == HandleField(handle, flags) + ([|data|] + data);
    case Event(_, _) =>
  }

  lemma WholeIsBuilt(kind: Byte, sco: Option<nat>, p: Packet) returns (u: Unit)
    requires Framed(kind) && WholePacket(kind, sco, p)
    ensures Belongs(kind, sco, u) && Bytes(u) == p
  {
    if kind == 2 {
      u := WholeAclIsBuilt(p);
    } else if kind == 3 {
      u := WholeScoIsBuilt(sco, p);
    } else {
      u := Event(p[0], p[2..]);
    }
  }

  lemma WholeAclIsBuilt(p: Packet) returns (u: Unit)
    requires WholePacket(2, None, p)
    ensures Belongs(2, None, u) && Bytes(u) == p
  {
    FieldOfHandle(p[0], p[1]);
    TwoBytesOfWord(p[2], p[3]);
    u := AclData(Handle(p), p[1] / 16, p[4..]);
  }

  lemma WholeScoIsBuilt(sco: Option<nat>, p: Packet) returns (u: Unit)
    requires WholePacket(3, sco, p)
    ensures Belongs(3, sco, u) && Bytes(u) == p
  {
    FieldOfHandle(p[0], p[1]);
    u := ScoData(Handle(p), p[1] / 16, p[3..]);
  }

  // Round trip: whatever packets are sent and however their bytes are cut, exactly those
  // packets come out, in order.
  lemma SentIsReceived(kind: Byte, sco: Option<nat>, us: seq<Unit>, fragments: seq<Packet>)
    requires Framed(kind) && Stream(kind, sco, us)
    requires Joined(fragments) == Joined(Encoded(kind, sco, us))
    ensures FeedAll(kind, [], fragments, sco) == Parse(Encoded(kind, sco, us), [], Consumed)
  {
    forall i | 0 <= i < |us| ensures WholePacket(kind, sco, Encoded(kind, sco, us)[i]) {
      BuiltIsWhole(kind, sco, us[i]);
    }
    FramingRoundTrip(kind, sco, Encoded(kind, sco, us), fragments);
  }

  // The beginning of one more packet stays, whatever its length.
  lemma BeginningStays(kind: Byte, sco: Option<nat>, us: seq<Unit>, u: Unit, k: nat)
    requires Framed(kind) && Stream(kind, sco, us) && Belongs(kind, sco, u) && k < |Bytes(u)|
    ensures Feed(kind, [], Joined(Encoded(kind, sco, us)) + Bytes(u)[..k], sco) == Parse(Encoded(kind, sco, us), Bytes(u)[..k], Consumed)
  {
    BuiltIsWhole(kind, sco, u);
    BeginningIsUnfinished(kind, sco, Bytes(u), k);
    forall i | 0 <= i < |us| ensures WholePacket(kind, sco, Encoded(kind, sco, us)[i]) {
      BuiltIsWhole(kind, sco, us[i]);
    }
    FeedParses(kind, sco, Encoded(kind, sco, us), Bytes(u)[..k]);
  }

  lemma BeginningIsUnfinished(kind: Byte, sco: Option<nat>, p: Packet, k: nat)
    requires Framed(kind) && WholePacket(kind, sco, p) && k < |p|
    ensures Unfinished(kind, sco, p[..k])
  {
  }

  // ------------------------------------------------------------------ what ends an input

  // An ACL header that announces more than 4092 bytes ends the input with an error.
  lemma OversizedFails(us: seq<Unit>, handle: nat, flags: nat, length: nat, tail: Packet)
    requires Stream(2, None, us) && handle < 4096 && flags < 16 && 4092 < length < 65536
    ensures Feed(2, [], Joined(Encoded(2, None, us)) + (HandleField(handle, flags) + TwoBytes(length) + tail), None)
            == Parse(Encoded(2, None, us), [], Failed)
  {
    var header := HandleField(handle, flags) + TwoBytes(length);
    assert Word(length % 256, length / 256) == length;
    FeedHeader(2, None, header, tail);
    AfterStream(2, None, us, header + tail);
    assert Encoded(2, None, us) + [] == Encoded(2, None, us);
  }

  // The header of another synchronous link discards the rest of the fragment.
  lemma ForeignHeaderDiscards(sco: Option<nat>, us: seq<Unit>, handle: nat, flags: nat, length: Byte, tail: Packet)
    requires Stream(3, sco, us) && handle < 4096 && flags < 16 && sco != Some(handle)
    ensures Feed(3, [], Joined(Encoded(3, sco, us)) + (HandleField(handle, flags) + [length] + tail), sco)
            == Parse(Encoded(3, sco, us), [], Dropped)
  {
    var header := HandleField(handle, flags) + [length];
    HandleOfField(handle, flags, [length]);
    FeedHeader(3, sco, header, tail);
    AfterStream(3, sco, us, header + tail);
    assert Encoded(3, sco, us) + [] == Encoded(3, sco, us);
  }

  lemma AfterStream(kind: Byte, sco: Option<nat>, us: seq<Unit>, tail: Packet)
    requires Framed(kind) && Stream(kind, sco, us)
    ensures var later := Feed(kind, [], tail, sco);
            Feed(kind, [], Joined(Encoded(kind, sco, us)) + tail, sco) ==
            Parse(Encoded(kind, sco, us) + later.frames, later.rest, later.ending)
  {
    forall i | 0 <= i < |us| ensures WholePacket(kind, sco, Encoded(kind, sco, us)[i]) {
      BuiltIsWhole(kind, sco, us[i]);
    }
    FeedParses(kind, sco, Encoded(kind, sco, us), []);
    assert Joined(Encoded(kind, sco, us)) + [] == Joined(Encoded(kind, sco, us));
    FeedAppend(kind, [], Joined(Encoded(kind, sco, us)), tail, sco);
  }

  // A header alone decides what happens to what follows.
  lemma FeedHeader(kind: Byte, sco: Option<nat>, header: Packet, tail: Packet)
    requires Framed(kind) && |header| == HeaderSize(kind)
    requires Inspect(kind, header, sco).Foreign? || Inspect(kind, header, sco).TooLong?
    ensures Feed(kind, [], header + tail, sco) == Parse([], [], if Inspect(kind, header, sco).Foreign? then Dropped else Failed)
  {
    FeedHeaderFrom(kind, sco, header, tail, 0);
    assert header[..0] == [] && header[0..] + tail == header + tail;
  }

  lemma {:induction false} FeedHeaderFrom(kind: Byte, sco: Option<nat>, header: Packet, tail: Packet, k: nat)
    requires Framed(kind) && |header| == HeaderSize(kind) && k < |header|
    requires Inspect(kind, header, sco).Foreign? || Inspect(kind, header, sco).TooLong?
    ensures Feed(kind, header[..k], header[k..] + tail, sco)
            == Parse([], [], if Inspect(kind, header, sco).Foreign? then Dropped else Failed)
    decreases |header| - k
  {
    var input := header[k..] + tail;
    var grown := header[..k] + [input[0]];
    assert grown == header[..k + 1] && input[1..] == header[k + 1..] + tail;
    if k + 1 == |header| {
      assert grown == header;
    } else {
      FeedHeaderFrom(kind, sco, header, tail, k + 1);
    }
  }
}

// What the link machine does with every packet of either side.
module LinkLaws {
  import opened Wrappers
  import opened Hci
  import opened TransportSpec
  import opened Wire

  // ------------------------------------------------------------------ from the host

  datatype HostUnit =
    | Command(opcode: nat, parameters: Packet)
    | HostAcl(handle: nat, flags: nat, data: Packet)
    | HostSco(handle: nat, flags: nat, data: Packet)

  predicate HostFits(u: HostUnit) {
    match u
    case Command(opcode, parameters) => opcode < 65536 && |parameters| <= 255
    case HostAcl(handle, flags, data) => Fits(AclData(handle, flags, data))
    case HostSco(handle, flags, data) => Fits(ScoData(handle, flags, data))
  }

  function HostBytes(u: HostUnit): Packet
    requires HostFits(u)
  {
    match u
    case Command(opcode, parameters) => [1] + TwoBytes(opcode) + [|parameters|] + parameters
    case HostAcl(handle, flags, data) => [2] + HandleField(handle, flags) + TwoBytes(|data|) + data
    case HostSco(handle, flags, data) => [3] + HandleField(handle, flags) + [|data|] + data
  }

  // Reset is command 3 of group 3.
  const RESET := Command(0x0c03, [])

  // What a well-formed packet of the host does: everything is forwarded, except synchronous
  // data that is not of the current link; Reset also takes the link down first.
  function Served(s: State, u: HostUnit): Out
    requires HostFits(u)
  {
    var forwarded := Usb(HostBytes(u));
    match u
    case Command(_, _) =>
      if u == RESET then Out(s.(link := None, sco := [], acl := []), Ok([Sco(0), forwarded])) else Out(s, Ok([forwarded]))
    case HostAcl(_, _, _) => Out(s, Ok([forwarded]))
    case HostSco(handle, _, data) =>
      if s.link.Some? && s.link.value.handle == handle then Out(s.(tx := s.tx + |data|), Ok([forwarded])) else Out(s, Ok([]))
  }

  lemma WellFormedIsServed(s: State, u: HostUnit)
    requires HostFits(u)
    ensures HostStep(s, HostBytes(u)) == Served(s, u)
  {
    match u
    case Command(_, _) =>
      CommandBytes(u);
      ReadsCommand(s, HostBytes(u), |u.parameters|);
    case HostAcl(_, _, data) =>
      AclBytes(u);
      ReadsAcl(s, HostBytes(u), |data|);
    case HostSco(handle, _, data) =>
      ScoBytes(u);
      ReadsSco(s, HostBytes(u), handle, |data|);
  }

  lemma ReadsCommand(s: State, p: Packet, length: nat)
    requires |p| == 4 + length && p[0] == 1 && p[3] == length
    ensures HostStep(s, p) == if p == [1, 3, 12, 0] then Out(s.(link := None, sco := [], acl := []), Ok([Sco(0), Usb(p)])) else Out(s, Ok([Usb(p)]))
  {
  }

  lemma ReadsAcl(s: State, p: Packet, length: nat)
    requires |p| == 5 + length && length <= 4092 && p[0] == 2 && Word(p[3], p[4]) == length
    ensures HostStep(s, p) == Out(s, Ok([Usb(p)]))
  {
  }

  lemma ReadsSco(s: State, p: Packet, handle: nat, length: nat)
    requires |p| == 4 + length && p[0] == 3 && p[3] == length && Handle(p[1..]) == handle
    ensures HostStep(s, p) ==
            if s.link.Some? && s.link.value.handle == handle then Out(s.(tx := s.tx + length), Ok([Usb(p)])) else Out(s, Ok([]))
  {
  }

  lemma AclBytes(u: HostUnit)
    requires u.HostAcl? && HostFits(u)
    ensures var p := HostBytes(u); |p| == 5 + |u.data| && p[0] == 2 && Word(p[3], p[4]) == |u.data|
  {
    LowEight(|u.data| % 256, |u.data| / 256);
  }

  lemma ScoBytes(u: HostUnit)
    requires u.HostSco? && HostFits(u)
    ensures var p := HostBytes(u); |p| == 4 + |u.data| && p[0] == 3 && p[3] == |u.data| && Handle(p[1..]) == u.handle
  {
    HandleOfField(u.handle, u.flags, [|u.data|] + u.data);
    assert HostBytes(u)[1..] == HandleField(u.handle, u.flags) + ([|u.data|] + u.data);
  }

  lemma CommandBytes(u: HostUnit)
    requires u.Command? && HostFits(u)
    ensures var p := HostBytes(u); |p| == 4 + |u.parameters| && p[0] == 1 && p[3] == |u.parameters|
    ensures HostBytes(u) == [1, 3, 12, 0] <==> u == RESET
  {
    if HostBytes(u) == [1, 3, 12, 0] {
      assert HostBytes(u)[1] == 3 && HostBytes(u)[2] == 12 && |u.parameters| == 0;
      assert u.opcode == u.opcode % 256 + 256 * (u.opcode / 256);
    }
  }

  // Everything else is an error and changes nothing.
  lemma MalformedFails(s: State, p: Packet)
    requires forall u :: HostFits(u) ==> HostBytes(u) != p
    ensures HostStep(s, p).result.Err? && HostStep(s, p).state == s
  {
    if HostStep(s, p).result.Ok? {
      var _ := AcceptedIsBuilt(s, p);
    }
  }

  lemma AcceptedIsBuilt(s: State, p: Packet) returns (u: HostUnit)
    requires HostStep(s, p).result.Ok?
    ensures HostFits(u) && HostBytes(u) == p
  {
    if p[0] == 1 {
      u := CommandIsBuilt(p);
    } else if p[0] == 2 {
      u := AclIsBuilt(p);
    } else {
      u := ScoIsBuilt(p);
    }
  }

  lemma CommandIsBuilt(p: Packet) returns (u: HostUnit)
    requires |p| >= 4 && p[0] == 1 && |p| - 4 == p[3]
    ensures HostFits(u) && HostBytes(u) == p
  {
    TwoBytesOfWord(p[1], p[2]);
    u := Command(Word(p[1], p[2]), p[4..]);
    assert p == [p[0], p[1], p[2], p[3]] + p[4..];
  }

  lemma AclIsBuilt(p: Packet) returns (u: HostUnit)
    requires 5 <= |p| <= MAX_FRAME + 1 && p[0] == 2 && |p| == 5 + Word(p[3], p[4])
    ensures HostFits(u) && HostBytes(u) == p
  {
    var handle, flags := SplitField(p[1], p[2]);
    TwoBytesOfWord(p[3], p[4]);
    u := HostAcl(handle, flags, p[5..]);
    assert p == [p[0], p[1], p[2], p[3], p[4]] + p[5..];
  }

  lemma ScoIsBuilt(p: Packet) returns (u: HostUnit)
    requires |p| >= 4 && p[0] == 3 && |p| - 4 == p[3]
    ensures HostFits(u) && HostBytes(u) == p
  {
    var handle, flags := SplitField(p[1], p[2]);
    u := HostSco(handle, flags, p[4..]);
    assert p == [p[0], p[1], p[2], p[3]] + p[4..];
  }

  // ------------------------------------------------------------------ events

  // Successful announcements of a synchronous connection, and of a disconnection.
  datatype Announcement =
    | Synchronous(handle: nat, flags: nat, address: Packet, enhanced: bool, timing: Packet, mode: Byte)
    | Legacy(handle: nat, flags: nat, address: Packet, encryption: Byte)
    | Disconnected(handle: nat, flags: nat, reason: Byte)

  predicate Announceable(a: Announcement) {
    && a.handle < 4096 && a.flags < 16
    && (!a.Disconnected? ==> |a.address| == 6) && (a.Synchronous? ==> |a.timing| == 6)
  }

  // Status 0; link type 0 is SCO and 2 eSCO.
  function Announced(a: Announcement): Unit
    requires Announceable(a)
  {
    var code := match a case Synchronous(_, _, _, _, _, _) => 0x2c case Legacy(_, _, _, _) => 0x03 case Disconnected(_, _, _) => 0x05;
    Event(code, [0] + HandleField(a.handle, a.flags) + Rest(a))
  }

  // What follows status and handle.
  function Rest(a: Announcement): Packet
    requires Announceable(a)
  {
    match a
    case Synchronous(_, _, address, enhanced, timing, mode) => address + [if enhanced then 2 else 0] + timing + [mode]
    case Legacy(_, _, address, encryption) => address + [0, encryption]
    case Disconnected(_, _, reason) => [reason]
  }

  function LinkOf(a: Announcement): Link
    requires !a.Disconnected?
  {
    Link(a.handle, if a.Synchronous? then a.mode else 2)
  }

  // What an announcement does to the link, and what the host sees of it.
  function Followed(s: State, a: Announcement, host: Action): Out
    requires Announceable(a)
  {
    if a.Disconnected? then
      if s.link.Some? && s.link.value.handle == a.handle then Out(s.(link := None, sco := []), Ok([Sco(0), host])) else Out(s, Ok([host]))
    else if a.handle > 3839 || LinkOf(a).mode !in {2, 3} then Out(s, Err(BadConnection))
    else if s.link.None? then
      Out(s.(link := Some(LinkOf(a)), sco := [], rx := 0, tx := 0), Ok([Sco(LinkOf(a).mode), host]))
    else if s.link.value == LinkOf(a) then Out(s, Ok([host]))
    else Out(s, Err(SecondConnection))
  }

  lemma AnnouncementIsFollowed(s: State, a: Announcement)
    requires Inv(s) && s.event == [] && Announceable(a)
    ensures var packet := Bytes(Announced(a)); UsbStep(s, 4, packet) == Followed(s, a, Host([4] + packet))
  {
    var packet := [4] + Bytes(Announced(a));
    OneEvent(s, Announced(a));
    AnnouncementIsRead(a);
    DeliverAnnouncement(s, a, packet);
  }

  lemma DeliverAnnouncement(s: State, a: Announcement, packet: Packet)
    requires |packet| >= 3 && Announceable(a)
    requires Connection(packet) == if a.Disconnected? then None else Some(LinkOf(a))
    requires Disconnection(packet) == if a.Disconnected? then Some(a.handle) else None
    ensures Deliver(s, 4, packet) == Followed(s, a, Host(packet))
  {
    var host := Host(packet);
    assert [] + [host] == [host] && [Sco(0)] + [host] == [Sco(0), host];
    if !a.Disconnected? {
      assert [Sco(LinkOf(a).mode)] + [host] == [Sco(LinkOf(a).mode), host];
    }
  }

  // The tracker reads from an event what was put into it.
  lemma AnnouncementIsRead(a: Announcement)
    requires Announceable(a)
    ensures var packet := [4] + Bytes(Announced(a));
            && Connection(packet) == (if a.Disconnected? then None else Some(LinkOf(a)))
            && Disconnection(packet) == if a.Disconnected? then Some(a.handle) else None
  {
    var packet, p := [4] + Bytes(Announced(a)), Announced(a).parameters;
    var rest := Rest(a);
    ParametersOf(Announced(a).code, a.handle, a.flags, rest);
    RestIs(a);
    if a.Synchronous? {
      ReadsSynchronous(packet, p, a.handle, a.mode);
    } else if a.Legacy? {
      ReadsLegacy(packet, p, a.handle);
    } else {
      ReadsDisconnected(packet, p, a.handle);
    }
  }

  lemma RestIs(a: Announcement)
    requires Announceable(a)
    ensures a.Synchronous? ==> |Rest(a)| == 14 && Rest(a)[6] == (if a.enhanced then 2 else 0) && Rest(a)[13] == a.mode
    ensures a.Legacy? ==> |Rest(a)| == 8 && Rest(a)[6] == 0
    ensures a.Disconnected? ==> |Rest(a)| == 1
  {
  }

  lemma ReadsSynchronous(packet: Packet, p: Packet, handle: nat, mode: Byte)
    requires |packet| >= 3 && packet[1] == 0x2c && packet[3..] == p && |p| == 17 && p[0] == 0
    requires (p[9] == 0 || p[9] == 2) && p[16] == mode && Handle(p[1..]) == handle
    ensures Connection(packet) == Some(Link(handle, mode)) && Disconnection(packet) == None
  {
  }

  lemma ReadsLegacy(packet: Packet, p: Packet, handle: nat)
    requires |packet| >= 3 && packet[1] == 0x03 && packet[3..] == p && |p| == 11 && p[0] == 0
    requires p[9] == 0 && Handle(p[1..]) == handle
    ensures Connection(packet) == Some(Link(handle, 2)) && Disconnection(packet) == None
  {
  }

  lemma ReadsDisconnected(packet: Packet, p: Packet, handle: nat)
    requires |packet| >= 3 && packet[1] == 0x05 && packet[3..] == p && |p| == 4 && p[0] == 0 && Handle(p[1..]) == handle
    ensures Connection(packet) == None && Disconnection(packet) == Some(handle)
  {
  }

  lemma ParametersOf(code: Byte, handle: nat, flags: nat, rest: Packet)
    requires handle < 4096 && flags < 16 && |rest| <= 252
    ensures var p := [0] + HandleField(handle, flags) + rest;
            var packet := [4] + Bytes(Event(code, p));
            && |p| == 3 + |rest| && packet[1] == code && packet[3..] == p && p[0] == 0
            && Handle(p[1..]) == handle && p[3..] == rest
            && forall k :: 0 <= k < |rest| ==> p[3 + k] == rest[k]
  {
    var p := [0] + HandleField(handle, flags) + rest;
    assert p[1..] == HandleField(handle, flags) + rest;
    HandleOfField(handle, flags, rest);
  }

  // Any other event only reaches the host.
  lemma OtherEventsAreForwarded(s: State, u: Unit)
    requires Inv(s) && s.event == [] && Fits(u) && u.Event?
    requires forall a :: Announceable(a) ==> Announced(a) != u
    ensures UsbStep(s, 4, Bytes(u)) == Out(s, Ok([Host([4] + Bytes(u))]))
  {
    var packet := [4] + Bytes(u);
    assert packet[3..] == u.parameters;
    OneEvent(s, u);
    assert [] + [Host(packet)] == [Host(packet)];
    if Connection(packet).Some? || Disconnection(packet).Some? {
      var _ := AnnouncementOf(u);
    }
  }

  lemma AnnouncementOf(u: Unit) returns (a: Announcement)
    requires u.Event? && Fits(u)
    requires Connection([4] + Bytes(u)).Some? || Disconnection([4] + Bytes(u)).Some?
    ensures Announceable(a) && Announced(a) == u
  {
    assert ([4] + Bytes(u))[3..] == u.parameters;
    FieldOfHandle(u.parameters[1], u.parameters[2]);
    if u.code == 0x2c {
      a := SynchronousOf(u.parameters);
    } else if u.code == 0x03 {
      a := LegacyOf(u.parameters);
    } else {
      a := DisconnectedOf(u.parameters);
    }
  }

  lemma SynchronousOf(p: Packet) returns (a: Announcement)
    requires |p| == 17 && p[0] == 0 && (p[9] == 0 || p[9] == 2)
    ensures Announceable(a) && Announced(a) == Event(0x2c, p)
  {
    var handle, flags := SplitField(p[1], p[2]);
    a := Synchronous(handle, flags, p[3..9], p[9] == 2, p[10..16], p[16]);
    assert p == [p[0], p[1], p[2]] + p[3..9] + [p[9]] + p[10..16] + [p[16]];
    assert [p[0], p[1], p[2]] == [0] + [p[1], p[2]];
  }

  lemma LegacyOf(p: Packet) returns (a: Announcement)
    requires |p| == 11 && p[0] == 0 && p[9] == 0
    ensures Announceable(a) && Announced(a) == Event(0x03, p)
  {
    var handle, flags := SplitField(p[1], p[2]);
    a := Legacy(handle, flags, p[3..9], p[10]);
    assert p == [p[0], p[1], p[2]] + p[3..9] + [p[9], p[10]];
    assert [p[0], p[1], p[2]] == [0] + [p[1], p[2]];
  }

  lemma DisconnectedOf(p: Packet) returns (a: Announcement)
    requires |p| == 4 && p[0] == 0
    ensures Announceable(a) && Announced(a) == Event(0x05, p)
  {
    var handle, flags := SplitField(p[1], p[2]);
    a := Disconnected(handle, flags, p[3]);
    assert p == [p[0], p[1], p[2]] + [p[3]];
    assert [p[0], p[1], p[2]] == [0] + [p[1], p[2]];
  }

  lemma OneEvent(s: State, u: Unit)
    requires Inv(s) && s.event == [] && Fits(u) && u.Event?
    ensures UsbStep(s, 4, Bytes(u)) == Deliver(s, 4, [4] + Bytes(u))
  {
    OnePacket(4, None, u);
    assert WithBuffer(s, 4, []) == s;
    assert Tag(4, [Bytes(u)]) == [[4] + Bytes(u)];
    DeliverOne(s, 4, [4] + Bytes(u));
  }

  lemma DeliverOne(s: State, kind: Byte, packet: Packet)
    requires Framed(kind) && |packet| >= HeaderSize(kind) + 1
    ensures DeliverAll(s, kind, [packet]) == Deliver(s, kind, packet)
  {
    var one := Deliver(s, kind, packet);
    if one.result.Ok? {
      assert one.result.value + [] == one.result.value;
      assert DeliverAll(one.state, kind, [packet][1..]) == Out(one.state, Ok([]));
    }
  }

  lemma OnePacket(kind: Byte, sco: Option<nat>, u: Unit)
    requires Framed(kind) && Belongs(kind, sco, u)
    ensures Feed(kind, [], Bytes(u), sco) == Parse([Bytes(u)], [], Consumed)
  {
    BuiltIsWhole(kind, sco, u);
    FeedParses(kind, sco, [Bytes(u)], []);
    assert Joined([Bytes(u)]) + [] == Bytes(u);
  }

  // ------------------------------------------------------------------ data

  // Successive fragments of one kind.
  function Fed(s: State, kind: Byte, fragments: seq<Packet>): Out
    requires Inv(s)
    decreases |fragments|
  {
    if fragments == [] then Out(s, Ok([]))
    else
      var first := UsbStep(s, kind, fragments[0]);
      UsbKeepsInv(s, kind, fragments[0]);
      if first.result.Err? then first else Then(first.result.value, Fed(first.state, kind, fragments[1..]))
  }

  lemma {:induction false} FedIsOneFragment(s: State, kind: Byte, fragments: seq<Packet>)
    requires Inv(s) && (kind == 2 || kind == 4) && UsbStep(s, kind, Joined(fragments)).result.Ok?
    ensures Fed(s, kind, fragments) == UsbStep(s, kind, Joined(fragments))
    decreases |fragments|
  {
    if fragments == [] {
      Nothing(s, kind);
    } else {
      var first := UsbStep(s, kind, fragments[0]);
      FragmentsAreInvisible(s, kind, fragments[0], Joined(fragments[1..]));
      if first.result.Ok? {
        FedIsOneFragment(first.state, kind, fragments[1..]);
      }
    }
  }

  lemma Nothing(s: State, kind: Byte)
    requires Inv(s) && (kind == 2 || kind == 4)
    ensures UsbStep(s, kind, []) == Out(s, Ok([]))
  {
  }

  // Music and other ACL data reaches the host, packet by packet, however the controller
  // cuts it.
  lemma AclSurvivesBoundaries(s: State, us: seq<Unit>, fragments: seq<Packet>)
    requires Inv(s) && s.acl == [] && Stream(2, None, us) && Joined(fragments) == Joined(Encoded(2, None, us))
    ensures Fed(s, 2, fragments) == Out(s, Ok(Hosts(Tag(2, Encoded(2, None, us)))))
  {
    SentIsReceived(2, None, us, [Joined(fragments)]);
    OneFragment(2, Joined(fragments), None);
    DeliverAcl(s, Tag(2, Encoded(2, None, us)));
    FedIsOneFragment(s, 2, fragments);
  }

  lemma OneFragment(kind: Byte, bytes: Packet, sco: Option<nat>)
    requires Framed(kind)
    ensures Joined([bytes]) == bytes
    ensures var p := Feed(kind, [], bytes, sco);
            FeedAll(kind, [], [bytes], sco) == if p.ending == Failed then p else p.(ending := Consumed)
  {
    var p := Feed(kind, [], bytes, sco);
    assert p.frames + [] == p.frames;
  }

  lemma {:induction false} DeliverAcl(s: State, frames: seq<Packet>)
    requires Headed(2, frames)
    ensures DeliverAll(s, 2, frames) == Out(s, Ok(Hosts(frames)))
    decreases |frames|
  {
    if frames != [] {
      DeliverAcl(s, frames[1..]);
    }
  }

  function Payload(us: seq<Unit>): nat
    requires forall i :: 0 <= i < |us| ==> us[i].ScoData?
  {
    if us == [] then 0 else |us[0].data| + Payload(us[1..])
  }

  // Synchronous data of the current link reaches the host and is counted.
  lemma ScoReachesTheHost(s: State, handle: nat, us: seq<Unit>)
    requires Inv(s) && LinkHandle(s.link) == Some(handle) && s.sco == [] && Stream(3, Some(handle), us)
    requires forall i :: 0 <= i < |us| ==> us[i].ScoData?
    ensures var packets := Encoded(3, Some(handle), us);
            UsbStep(s, 3, Joined(packets)) == Out(s.(rx := s.rx + Payload(us)), Ok(Hosts(Tag(3, packets))))
  {
    var packets := Encoded(3, Some(handle), us);
    forall i | 0 <= i < |us| ensures WholePacket(3, Some(handle), packets[i]) {
      BuiltIsWhole(3, Some(handle), us[i]);
    }
    ScoStream(s, handle, packets);
    PayloadIs(Some(handle), us);
  }

  lemma ScoStream(s: State, handle: nat, packets: seq<Packet>)
    requires Inv(s) && LinkHandle(s.link) == Some(handle) && s.sco == []
    requires forall i :: 0 <= i < |packets| ==> WholePacket(3, Some(handle), packets[i])
    ensures PayloadOf(packets) >= 0
    ensures UsbStep(s, 3, Joined(packets)) == Out(s.(rx := s.rx + PayloadOf(packets)), Ok(Hosts(Tag(3, packets))))
  {
    FeedParses(3, Some(handle), packets, []);
    assert Joined(packets) + [] == Joined(packets);
    assert WithBuffer(s, 3, []) == s;
    ForwardAll(s, packets);
  }

  lemma {:induction false} PayloadIs(sco: Option<nat>, us: seq<Unit>)
    requires Stream(3, sco, us) && forall i :: 0 <= i < |us| ==> us[i].ScoData?
    ensures PayloadOf(Encoded(3, sco, us)) == Payload(us)
    decreases |us|
  {
    if us != [] {
      PayloadIs(sco, us[1..]);
      assert Belongs(3, sco, us[0]);
      assert Encoded(3, sco, us)[1..] == Encoded(3, sco, us[1..]);
    }
  }

  // Without a link synchronous data is dropped, whatever it is.
  lemma NoLinkNoSco(s: State, bytes: Packet)
    requires Inv(s) && s.link.None?
    ensures UsbStep(s, 3, bytes) == Out(s, Ok([]))
  {
  }
}
