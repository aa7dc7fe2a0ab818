// HCI packet framing (floss-usb/src/transport.rs).
//
// The formats are those of sections 5.4.1 to 5.4.4 of the Bluetooth Core Specification,
// Vol 4 Part E: kind 2 is ACL data, 3 synchronous (SCO) data, 4 an event.
module Hci {
  import opened Wrappers

  type Byte = b: int | 0 <= b < 256
  type Packet = seq<Byte>

  const MAX_FRAME := 4096

  datatype Error =
    | UnsupportedType
    | Oversized
    | BadConnection
    | SecondConnection
    | EmptyPacket
    | ShortHeader
    | BadLength

  predicate Framed(kind: Byte) {
    kind == 2 || kind == 3 || kind == 4
  }

  function Word(lo: Byte, hi: Byte): (w: nat)
    ensures w < 65536
  {
    lo + 256 * hi
  }

  // The low twelve bits of the first two bytes.
  function Handle(bytes: Packet): (h: nat)
    requires |bytes| >= 2
    ensures h < 4096
  {
    Word(bytes[0], bytes[1]) % 4096
  }

  function HeaderSize(kind: Byte): (n: nat)
    requires Framed(kind)
    ensures 2 <= n <= 4
  {
    if kind == 2 then 4 else if kind == 3 then 3 else 2
  }

  // Total length announced by a complete header.
  function Declared(kind: Byte, buf: Packet): (n: nat)
    requires Framed(kind) && |buf| >= HeaderSize(kind)
    ensures n >= HeaderSize(kind)
  {
    HeaderSize(kind) +
    if kind == 2 then Word(buf[2], buf[3]) else if kind == 3 then buf[2] else buf[1]
  }

  // ------------------------------------------------------------------ what a packet is

  // A complete packet: its length is the one its own header announces.
  predicate WholePacket(kind: Byte, sco: Option<nat>, p: Packet)
    requires Framed(kind)
  {
    && |p| >= HeaderSize(kind)
    && |p| == Declared(kind, p) <= MAX_FRAME
    && (kind == 3 ==> sco == Some(Handle(p)))
  }

  // An incomplete packet that may still become one.
  predicate Unfinished(kind: Byte, sco: Option<nat>, p: Packet)
    requires Framed(kind)
  {
    |p| < HeaderSize(kind) ||
    (|p| < Declared(kind, p) <= MAX_FRAME && (kind == 3 ==> sco == Some(Handle(p))))
  }

  function Joined(ps: seq<Packet>): (r: Packet) {
    if ps == [] then [] else ps[0] + Joined(ps[1..])
  }

  // ------------------------------------------------------------------ the reassembler

  datatype Verdict = Partial | Foreign | TooLong | Complete

  function Inspect(kind: Byte, buf: Packet, sco: Option<nat>): Verdict
    requires Framed(kind)
  {
    if |buf| < HeaderSize(kind) then Partial
    else if kind == 3 && |buf| == HeaderSize(kind) && sco != Some(Handle(buf)) then Foreign
    else if Declared(kind, buf) > MAX_FRAME then TooLong
    else if |buf| == Declared(kind, buf) then Complete
    else Partial
  }

  datatype Ending = Consumed | Dropped | Failed
  datatype Parse = Parse(frames: seq<Packet>, rest: Packet, ending: Ending)

  function Before(frame: Packet, p: Parse): Parse {
    p.(frames := [frame] + p.frames)
  }

  // Feeding `input` byte by byte to a reassembler that retains `buf`.
  function Feed(kind: Byte, buf: Packet, input: Packet, sco: Option<nat>): Parse
    requires Framed(kind)
    decreases |input|
  {
    if input == [] then Parse([], buf, Consumed)
    else
      var grown := buf + [input[0]];
      match Inspect(kind, grown, sco)
      case Partial => Feed(kind, grown, input[1..], sco)
      case Foreign => Parse([], [], Dropped)
      case TooLong => Parse([], [], Failed)
      case Complete => Before(grown, Feed(kind, [], input[1..], sco))
  }

  // Successive calls, one per USB fragment, all on the same reassembler.
  function FeedAll(kind: Byte, buf: Packet, fragments: seq<Packet>, sco: Option<nat>): Parse
    requires Framed(kind)
    decreases |fragments|
  {
    if fragments == [] then Parse([], buf, Consumed)
    else
      var first := Feed(kind, buf, fragments[0], sco);
      if first.ending == Failed then first
      else
        var later := FeedAll(kind, first.rest, fragments[1..], sco);
        later.(frames := first.frames + later.frames)
  }

  function Tag(kind: Byte, frames: seq<Packet>): (r: seq<Packet>)
    ensures |r| == |frames|
    ensures forall i :: 0 <= i < |r| ==> r[i] == [kind] + frames[i]
  {
    if frames == [] then [] else [[kind] + frames[0]] + Tag(kind, frames[1..])
  }

  // ------------------------------------------------------------------ laws

  // A retained fragment is always shorter than the largest frame.
  lemma UnfinishedIsBounded(kind: Byte, sco: Option<nat>, p: Packet)
    requires Framed(kind) && Unfinished(kind, sco, p)
    ensures |p| < MAX_FRAME
  {
  }

  // A complete header does not change while its payload arrives.
  lemma HeaderStays(kind: Byte, buf: Packet, b: Byte)
    requires Framed(kind)
    ensures |buf| >= HeaderSize(kind) ==> Declared(kind, buf + [b]) == Declared(kind, buf)
    ensures |buf| >= 2 ==> Handle(buf + [b]) == Handle(buf)
  {
  }

  lemma JoinedFirst(p: Packet, ps: seq<Packet>, rest: Packet)
    ensures Joined([p] + ps) + rest == p + (Joined(ps) + rest)
  {
    assert ([p] + ps)[1..] == ps;
  }

  // Soundness: every byte of an accepted input ends up, in order, in exactly one emitted
  // packet or in the retained fragment, and everything emitted is a whole packet.
  lemma {:induction false} FeedConserves(kind: Byte, buf: Packet, input: Packet, sco: Option<nat>)
    requires Framed(kind) && Unfinished(kind, sco, buf)
    ensures var r := Feed(kind, buf, input, sco);
            && Unfinished(kind, sco, r.rest)
            && (forall i :: 0 <= i < |r.frames| ==> WholePacket(kind, sco, r.frames[i]))
            && (r.ending == Consumed ==> Joined(r.frames) + r.rest == buf + input)
            && (r.ending == Dropped ==> kind == 3)
            && (r.ending == Failed ==> kind == 2)
    decreases |input|
  {
    if input != [] {
      var grown := buf + [input[0]];
      assert grown + input[1..] == buf + input;
      HeaderStays(kind, buf, input[0]);
      match Inspect(kind, grown, sco)
      case Partial => FeedConserves(kind, grown, input[1..], sco);
      case Complete =>
        FeedConserves(kind, [], input[1..], sco);
        var tail := Feed(kind, [], input[1..], sco);
        JoinedFirst(grown, tail.frames, tail.rest);
        assert [] + input[1..] == input[1..];
      case _ =>
    }
  }

  // Cutting one input in two does not change what a reassembler does with it.
  lemma {:induction false} FeedAppend(kind: Byte, buf: Packet, a: Packet, b: Packet, sco: Option<nat>)
    requires Framed(kind)
    ensures var ra := Feed(kind, buf, a, sco);
            if ra.ending == Consumed then
              var rb := Feed(kind, ra.rest, b, sco);
              Feed(kind, buf, a + b, sco) == Parse(ra.frames + rb.frames, rb.rest, rb.ending)
            else
              Feed(kind, buf, a + b, sco) == ra
    decreases |a|
  {
    if a == [] {
      assert a + b == b;
      var rb := Feed(kind, buf, b, sco);
      assert [] + rb.frames == rb.frames;
    } else {
      assert (a + b)[1..] == a[1..] + b;
      var grown := buf + [a[0]];
      match Inspect(kind, grown, sco)
      case Partial => FeedAppend(kind, grown, a[1..], b, sco);
      case Complete =>
        FeedAppend(kind, [], a[1..], b, sco);
        var ra := Feed(kind, [], a[1..], sco);
        var rb := Feed(kind, ra.rest, b, sco);
        assert [grown] + (ra.frames + rb.frames) == ([grown] + ra.frames) + rb.frames;
      case _ =>
    }
  }

  // From any proper prefix of a whole packet, the remaining bytes complete exactly it.
  lemma {:induction false} FeedCompletes(kind: Byte, sco: Option<nat>, p: Packet, k: nat, tail: Packet)
    requires Framed(kind) && WholePacket(kind, sco, p) && k < |p|
    ensures Feed(kind, p[..k], p[k..] + tail, sco) == Before(p, Feed(kind, [], tail, sco))
    decreases |p| - k
  {
    var input := p[k..] + tail;
    var grown := p[..k] + [input[0]];
    assert grown == p[..k + 1];
    assert input[1..] == p[k + 1..] + tail;
    if k + 1 == |p| {
      assert grown == p;
      assert p[k + 1..] + tail == tail;
    } else {
      if k + 1 >= HeaderSize(kind) {
        assert Declared(kind, grown) == Declared(kind, p);
        assert kind == 3 ==> Handle(grown) == Handle(p);
      }
      FeedCompletes(kind, sco, p, k + 1, tail);
    }
  }

  // An unfinished packet is retained as it is.
  lemma {:induction false} FeedRetains(kind: Byte, sco: Option<nat>, p: Packet, k: nat)
    requires Framed(kind) && Unfinished(kind, sco, p) && k <= |p|
    ensures Feed(kind, p[..k], p[k..], sco) == Parse([], p, Consumed)
    decreases |p| - k
  {
    if k == |p| {
      assert p[..k] == p;
    } else {
      var grown := p[..k] + [p[k..][0]];
      assert grown == p[..k + 1];
      assert p[k..][1..] == p[k + 1..];
      if k + 1 >= HeaderSize(kind) {
        assert Declared(kind, grown) == Declared(kind, p);
        assert kind == 3 ==> Handle(grown) == Handle(p);
      }
      FeedRetains(kind, sco, p, k + 1);
    }
  }

  // Completeness: whole packets followed by an unfinished one parse to exactly those.
  lemma {:induction false} FeedParses(kind: Byte, sco: Option<nat>, ps: seq<Packet>, tail: Packet)
    requires Framed(kind) && Unfinished(kind, sco, tail)
    requires forall i :: 0 <= i < |ps| ==> WholePacket(kind, sco, ps[i])
    ensures Feed(kind, [], Joined(ps) + tail, sco) == Parse(ps, tail, Consumed)
    decreases |ps|
  {
    if ps == [] {
      assert Joined(ps) + tail == tail && tail[..0] == [] && tail[0..] == tail;
      FeedRetains(kind, sco, tail, 0);
    } else {
      var p, later := ps[0], Joined(ps[1..]) + tail;
      assert Joined(ps) + tail == p + later && p[..0] == [] && p[0..] == p;
      FeedCompletes(kind, sco, p, 0, later);
      FeedParses(kind, sco, ps[1..], tail);
      assert [p] + ps[1..] == ps;
    }
  }

  // Fragments that arrive one by one give what they give as one piece, errors included,
  // unless a foreign synchronous header discards the rest of its own piece: then the packets
  // before it are the same, and the fragments after it are still heard.
  lemma {:induction false} FeedAllIsFeed(kind: Byte, buf: Packet, fragments: seq<Packet>, sco: Option<nat>)
    requires Framed(kind)
    ensures var whole := Feed(kind, buf, Joined(fragments), sco);
            if whole.ending == Dropped then whole.frames <= FeedAll(kind, buf, fragments, sco).frames
            else FeedAll(kind, buf, fragments, sco) == whole
    decreases |fragments|
  {
    if fragments != [] {
      FeedAppend(kind, buf, fragments[0], Joined(fragments[1..]), sco);
      var first := Feed(kind, buf, fragments[0], sco);
      if first.ending == Consumed {
        FeedAllIsFeed(kind, first.rest, fragments[1..], sco);
      }
    }
  }

  // A packet of the link behind a foreign header: heard on its own, lost in one piece.
  lemma ForeignHeaderTellsPiecesApart()
    ensures var foreign, ours := [2, 0, 0], [1, 0, 0];
            && FeedAll(3, [], [foreign, ours], Some(1)).frames == [ours]
            && Feed(3, [], foreign + ours, Some(1)) == Parse([], [], Dropped)
  {
    var foreign: Packet, ours: Packet := [2, 0, 0], [1, 0, 0];
    ThreeBytes(foreign);
    ThreeBytes(ours);
    FeedAppend(3, [], foreign, ours, Some(1));
    assert [foreign, ours][1..] == [ours] && [ours][1..] == [];
    assert FeedAll(3, [], [ours], Some(1)).frames == [ours];
  }

  // A synchronous header alone, on the link with handle 1.
  lemma ThreeBytes(p: Packet)
    requires |p| == 3 && p[2] == 0
    ensures Feed(3, [], p, Some(1)) == if Handle(p) == 1 then Parse([p], [], Consumed) else Parse([], [], Dropped)
  {
    assert [] + [p[0]] == p[..1] && p[..1] + [p[1..][0]] == p[..2] && p[..2] + [p[2..][0]] == p;
    assert p[1..][1..] == p[2..] && p[2..][1..] == [];
    assert Feed(3, p[..2], p[2..], Some(1)) == if Handle(p) == 1 then Before(p, Feed(3, [], [], Some(1))) else Parse([], [], Dropped);
    assert Feed(3, p[..1], p[1..], Some(1)) == Feed(3, p[..2], p[2..], Some(1));
  }

  // Framing round trip: however the concatenation of well-formed packets is cut into
  // fragments, exactly those packets come out, in order, and nothing is left over.
  lemma FramingRoundTrip(kind: Byte, sco: Option<nat>, ps: seq<Packet>, fragments: seq<Packet>)
    requires Framed(kind)
    requires forall i :: 0 <= i < |ps| ==> WholePacket(kind, sco, ps[i])
    requires Joined(fragments) == Joined(ps)
    ensures FeedAll(kind, [], fragments, sco) == Parse(ps, [], Consumed)
  {
    FeedParses(kind, sco, ps, []);
    assert Joined(ps) + [] == Joined(ps);
    FeedAllIsFeed(kind, [], fragments, sco);
  }
}
