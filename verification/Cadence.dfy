// Packet cadence of the aptX and aptX HD encoders (patches/bluetooth-floss.patch) and the
// sizes accepted by the sandboxed codec (patches/bluetooth-codec-service.patch).
//
// Packets leave at a fixed interval in whole codec groups, so that at 44.1 kHz no packet
// holds exactly the samples of its interval; an occasional larger packet makes up for it.
module CadenceSpec {
  import opened Arithmetic

  // SCMS-T, content protection, leaves less room in a packet; aptX HD ignores it.
  datatype Codec = Aptx(scmst: bool) | AptxHd

  // What one packet carries: its encoded size, and the size and number of PCM reads.
  datatype Framing = Framing(bytes: nat, perRead: nat, count: nat)

  // Stereo frames of 16 or 24 bits.
  function FrameBytes(c: Codec): nat {
    if c.AptxHd? then 6 else 4
  }

  // Four stereo frames make one codec group.
  function Group(c: Codec): nat {
    4 * FrameBytes(c)
  }

  // A sample rate other than 48000 is taken to be 44100.
  function Rate(fast: bool): nat {
    if fast then 48000 else 44100
  }

  function IntervalMs(c: Codec, fast: bool): nat {
    match c
    case AptxHd => 9
    case Aptx(scmst) => (if fast then 14 else 15) - if scmst then 1 else 0
  }

  // The table of packets, by their number since the last reset, counted from one.
  function Nth(c: Codec, fast: bool, n: nat): Framing {
    match c
    case AptxHd =>
      if fast || n % 80 == 0 then Framing(648, 24, 108)
      else if n % 20 == 0 then Framing(612, 24, 102)
      else Framing(594, 24, 99)
    case Aptx(scmst) =>
      if fast then
        if scmst then Framing(624, 208, 12) else Framing(672, 224, 12)
      else if scmst then
        if n % 20 == 0 then Framing(644, 368, 7) else Framing(616, 224, 11)
      else
        if n % 8 == 0 then Framing(672, 224, 12) else Framing(660, 240, 11)
  }

  function Frames(c: Codec, fast: bool, n: nat): nat {
    var f := Nth(c, fast, n);
    f.count * f.perRead / FrameBytes(c)
  }

  // Every read is a whole number of codec groups, encodes to a quarter of its size, and the
  // reads of a packet fill exactly the announced payload within the read buffer.
  lemma PacketsAreWhole(c: Codec, fast: bool, n: nat)
    ensures var f := Nth(c, fast, n);
            && f.perRead > 0 && f.perRead % Group(c) == 0 && f.perRead % 4 == 0
            && f.count * f.perRead == 4 * f.bytes == Frames(c, fast, n) * FrameBytes(c)
            && f.count * f.perRead <= 4096
  {
    var f := Nth(c, fast, n);
    assert f.count * f.perRead == 4 * f.bytes;
  }

  // PCM bytes per channel and sample are the frames of the packet.
  lemma FramesOfPcm(c: Codec, fast: bool, n: nat)
    ensures Nth(c, fast, n).count * Nth(c, fast, n).perRead / 2 / (if c.AptxHd? then 3 else 2) == Frames(c, fast, n)
  {
  }

  // The packets of the encoders by their place, counted from one, in a period of 80, 8 or 20
  // at 44.1 kHz: their bytes, and the size and number of their PCM reads.
  lemma PacketsOfAptxHd(turn: nat, place: nat)
    requires 1 <= place <= 80
    ensures Nth(AptxHd, false, 80 * turn + place) ==
            if place == 80 then Framing(648, 24, 108) else if place in {20, 40, 60} then Framing(612, 24, 102) else Framing(594, 24, 99)
  {
    PlaceOf(80, turn, place);
    Quarter(80 * turn + place);
    var late := place - 20 * (place / 20);
    assert place % 20 == late;
  }

  lemma PacketsOfAptx(turn: nat, place: nat)
    ensures 1 <= place <= 8 ==>
              Nth(Aptx(false), false, 8 * turn + place) == if place == 8 then Framing(672, 224, 12) else Framing(660, 240, 11)
    ensures 1 <= place <= 20 ==>
              Nth(Aptx(true), false, 20 * turn + place) == if place == 20 then Framing(644, 368, 7) else Framing(616, 224, 11)
  {
    if 1 <= place <= 8 {
      PlaceOf(8, turn, place);
    }
    if 1 <= place <= 20 {
      PlaceOf(20, turn, place);
    }
  }

  // At 48 kHz they are all alike.
  lemma PacketsAt48kHz(n: nat)
    ensures Nth(AptxHd, true, n) == Framing(648, 24, 108)
    ensures Nth(Aptx(false), true, n) == Framing(672, 224, 12) && Nth(Aptx(true), true, n) == Framing(624, 208, 12)
  {
  }

  lemma PlaceOf(period: nat, turn: nat, place: nat)
    requires 1 <= place <= period
    ensures (period * turn + place) % period == if place == period then 0 else place
  {
    var n, rest := period * turn + place, if place == period then 0 else place;
    var turns := if place == period then turn + 1 else turn;
    assert n == period * turns + rest by {
      if place == period {
        assert period * (turn + 1) == period * turn + period;
      }
    }
    var q := n / period - turns;
    assert period * q == rest - n % period by {
      assert period * (n / period - turns) == period * (n / period) - period * turns;
    }
    SmallMultiple(period, q);
  }

  // ------------------------------------------------------------------ the long run

  function Requested(c: Codec, fast: bool, n: nat): nat {
    if n == 0 then 0 else Requested(c, fast, n - 1) + Frames(c, fast, n)
  }

  // How far n packets are behind real time, in thousandths of a frame.
  function Lag(c: Codec, fast: bool, n: nat): int {
    Rate(fast) * IntervalMs(c, fast) * n - 1000 * Requested(c, fast, n)
  }

  function Period(c: Codec, fast: bool): (p: nat)
    ensures p > 0
  {
    if fast then 1 else match c case AptxHd => 80 case Aptx(scmst) => if scmst then 20 else 8
  }

  // The lag at position k of a period.
  function LagWithin(c: Codec, fast: bool, k: nat): int {
    if fast then 0 else
    match c
    case AptxHd => 900 * k - 12000 * (k / 20)
    case Aptx(scmst) => if scmst then 1400 * k else 1500 * k
  }

  function WorstLag(c: Codec, fast: bool): nat {
    if fast then 0 else match c case AptxHd => 35100 case Aptx(scmst) => if scmst then 26600 else 10500
  }

  lemma Eight(n: nat)
    requires n > 0
    ensures n % 8 == if (n - 1) % 8 == 7 then 0 else (n - 1) % 8 + 1
  {
  }

  lemma Twenty(n: nat)
    requires n > 0
    ensures n % 20 == if (n - 1) % 20 == 19 then 0 else (n - 1) % 20 + 1
  {
  }

  lemma Eighty(n: nat)
    requires n > 0
    ensures n % 80 == if (n - 1) % 80 == 79 then 0 else (n - 1) % 80 + 1
  {
  }

  lemma Quarter(n: nat)
    ensures n % 20 == (n % 80) % 20
  {
    var d := n / 20 - 4 * (n / 80) - n % 80 / 20;
    assert 20 * d == n % 80 % 20 - n % 20;
    SmallMultiple(20, d);
  }

  // The next packet is at the next position of its period.
  lemma NextPosition(c: Codec, fast: bool, n: nat)
    requires n > 0
    ensures var p := Period(c, fast);
            n % p == if (n - 1) % p == p - 1 then 0 else (n - 1) % p + 1
  {
    if !fast {
      match c {
        case AptxHd => Eighty(n);
        case Aptx(scmst) =>
          if scmst {
            Twenty(n);
          } else {
            Eight(n);
          }
      }
    }
  }

  // The table repeats with its period.
  lemma TableIsPeriodic(c: Codec, fast: bool, n: nat)
    ensures Nth(c, fast, n) == Nth(c, fast, n % Period(c, fast))
  {
    if c.AptxHd? && !fast {
      Quarter(n);
    }
  }

  // One packet moves the lag to the next position of the period.
  lemma PacketMovesTheLag(c: Codec, fast: bool, k: nat, next: nat)
    requires k < Period(c, fast) && next == if k == Period(c, fast) - 1 then 0 else k + 1
    ensures LagWithin(c, fast, next) == LagWithin(c, fast, k) + Rate(fast) * IntervalMs(c, fast) - 1000 * Frames(c, fast, next)
  {
  }

  // For every packet count the cadence is at its closed form: never ahead of real time, at
  // most the worst lag behind, exact at whole periods and nowhere else.
  lemma {:induction false} CadenceIsExact(c: Codec, fast: bool, n: nat)
    ensures Lag(c, fast, n) == LagWithin(c, fast, n % Period(c, fast))
    ensures 0 <= Lag(c, fast, n) <= WorstLag(c, fast)
    ensures n % Period(c, fast) == 0 ==> Lag(c, fast, n) == 0
    ensures !fast && Lag(c, fast, n) == 0 ==> n % Period(c, fast) == 0
    ensures n % Period(c, fast) == Period(c, fast) - 1 ==> Lag(c, fast, n) == WorstLag(c, fast)
  {
    if n > 0 {
      CadenceIsExact(c, fast, n - 1);
      NextPosition(c, fast, n);
      TableIsPeriodic(c, fast, n);
      PacketMovesTheLag(c, fast, (n - 1) % Period(c, fast), n % Period(c, fast));
      LagStep(c, fast, n);
    }
    LagWithinBounds(c, fast, n % Period(c, fast));
  }

  lemma LagStep(c: Codec, fast: bool, n: nat)
    requires n > 0
    ensures Lag(c, fast, n) == Lag(c, fast, n - 1) + Rate(fast) * IntervalMs(c, fast) - 1000 * Frames(c, fast, n)
  {
    var due := Rate(fast) * IntervalMs(c, fast);
    assert due * n == due * (n - 1) + due;
  }

  lemma LagWithinBounds(c: Codec, fast: bool, k: nat)
    requires k < Period(c, fast)
    ensures 0 <= LagWithin(c, fast, k) <= WorstLag(c, fast)
    ensures k == 0 ==> LagWithin(c, fast, k) == 0
    ensures !fast && LagWithin(c, fast, k) == 0 ==> k == 0
    ensures k == Period(c, fast) - 1 ==> LagWithin(c, fast, k) == WorstLag(c, fast)
  {
  }
}

module Cadence {
  import opened CadenceSpec
  import opened Wrappers

  const WORD32: nat := 0x1_0000_0000
  const EIO: int := 5
  const EINVAL: int := 22

  // A packet put on the media channel.
  datatype Sent = Sent(timestamp: nat, payload: nat, pcm: nat)

  // The sandboxed encoder: one group of four frames at a time, any of which may fail.
  class CodecClient {
    ghost var failures: nat

    constructor ()
      ensures failures == 0
    {
      failures := 0;
    }

    method Transcode(c: Codec, input: int, room: int) returns (output: int)
      modifies this
      ensures input <= 0 || input % Group(c) != 0 || room < input / 4 ==> output == -EINVAL && failures == old(failures)
      ensures input > 0 && input % Group(c) == 0 && room >= input / 4 ==>
                if failures == old(failures) then output == input / 4 else output == -EIO && failures == old(failures) + 1
    {
      if input <= 0 || input % Group(c) != 0 || room < input / 4 {
        return -EINVAL;
      }
      var offset := 0;
      while offset < input
        invariant offset >= 0 && failures == old(failures)
      {
        var failed := *;
        if failed {
          failures := failures + 1;
          return -EIO;
        }
        offset := offset + Group(c);
      }
      return input / 4;
    }
  }

  class Encoder {
    const client: CodecClient
    const codec: Codec
    const fast: bool
    var framing: Framing
    var counter: nat
    var timestamp: nat
    var dropped: nat
    // Packets attempted since the last reset, PCM frames asked for in them, and frames sent
    // since the encoder was created.
    ghost var packets: nat
    ghost var asked: nat
    ghost var sent: nat

    ghost predicate Valid()
      reads this
    {
      && counter == packets % Period(codec, fast)
      && asked == Requested(codec, fast, packets)
      && timestamp == sent % WORD32
    }

    constructor (client: CodecClient, codec: Codec, fast: bool)
      ensures Valid() && this.client == client && this.codec == codec && this.fast == fast
      ensures packets == 0 && sent == 0 && dropped == 0
    {
      this.client, this.codec, this.fast := client, codec, fast;
      framing, counter, timestamp, dropped := Framing(0, 0, 0), 0, 0, 0;
      packets, asked, sent := 0, 0, 0;
    }

    // After any run of ticks and resets the frames asked for follow real time.
    lemma OnTime()
      requires Valid()
      ensures 0 <= Rate(fast) * IntervalMs(codec, fast) * packets - 1000 * asked <= WorstLag(codec, fast)
    {
      CadenceIsExact(codec, fast, packets);
    }

    // A reset or flush restarts the cadence; the time stamp goes on.
    method Reset()
      requires Valid()
      modifies this
      ensures Valid() && packets == 0 && framing == Framing(0, 0, 0)
      ensures timestamp == old(timestamp) && sent == old(sent) && dropped == old(dropped)
    {
      framing, counter := Framing(0, 0, 0), 0;
      packets, asked := 0, 0;
    }

    // The counter automaton produces exactly the packet table.
    method UpdateFraming()
      requires Valid()
      modifies this`framing, this`counter, this`packets, this`asked
      ensures Valid() && packets == old(packets) + 1 && framing == Nth(codec, fast, packets)
      ensures asked == old(asked) + Frames(codec, fast, packets)
    {
      match codec {
        case AptxHd =>
          if fast {
            framing := Framing(648, 24, 108);
          } else {
            if counter + 1 == 80 {
              framing := Framing(648, 24, 108);
            } else if (counter + 1) % 20 == 0 {
              framing := Framing(612, 24, 102);
            } else {
              framing := Framing(594, 24, 99);
            }
            counter := counter + 1;
            if counter == 80 {
              counter := 0;
            }
          }
        case Aptx(scmst) =>
          if fast {
            framing := if scmst then Framing(624, 208, 12) else Framing(672, 224, 12);
          } else if scmst {
            counter := counter + 1;
            if counter < 20 {
              framing := Framing(616, 224, 11);
            } else {
              framing := Framing(644, 368, 7);
              counter := 0;
            }
          } else {
            counter := counter + 1;
            if counter < 8 {
              framing := Framing(660, 240, 11);
            } else {
              framing := Framing(672, 224, 12);
              counter := 0;
            }
          }
      }
      packets := packets + 1;
      NextPosition(codec, fast, packets);
      TableIsPeriodic(codec, fast, packets);
      asked := asked + Frames(codec, fast, packets);
    }

    // Encode the reads of one packet; None exactly when the codec fails on one of them.
    method Encode() returns (pcm: Option<nat>)
      requires Valid() && packets > 0 && framing == Nth(codec, fast, packets)
      modifies client
      ensures pcm.Some? <==> client.failures == old(client.failures)
      ensures client.failures >= old(client.failures)
      ensures pcm.Some? ==> pcm.value == framing.count * framing.perRead
    {
      var done, index, encoded := 0, 0, 0;
      PacketsAreWhole(codec, fast, packets);
      while done < framing.count
        invariant done <= framing.count && client.failures == old(client.failures)
        invariant encoded == done * framing.perRead == 4 * index
      {
        var output := client.Transcode(codec, framing.perRead, framing.perRead / 4);
        if output != framing.perRead / 4 {
          return None;
        }
        index := index + output;
        encoded := encoded + framing.perRead;
        done := done + 1;
      }
      return Some(encoded);
    }

    // One tick of the media timer. The cadence advances whether or not the packet is sent;
    // a sent packet carries the time stamp of its first frame and its full payload, and a
    // packet is dropped exactly for lack of PCM or by a codec failure.
    method SendFrames(available: nat) returns (packet: Option<Sent>)
      requires Valid()
      modifies this, client
      ensures Valid() && packets == old(packets) + 1 && asked == old(asked) + Frames(codec, fast, packets)
      ensures packet.None? <==>
              available < Nth(codec, fast, packets).count * Nth(codec, fast, packets).perRead || client.failures > old(client.failures)
      ensures packet.None? ==> sent == old(sent) && timestamp == old(timestamp) && dropped == old(dropped) + 1
      ensures packet.Some? ==>
                && dropped == old(dropped) && sent == old(sent) + Frames(codec, fast, packets)
                && packet.value.timestamp == old(sent) % WORD32
                && packet.value.payload == Nth(codec, fast, packets).bytes
                && packet.value.pcm == Frames(codec, fast, packets) * FrameBytes(codec)
    {
      UpdateFraming();
      PacketsAreWhole(codec, fast, packets);
      var expected := framing.count * framing.perRead;
      var read := if available < expected then available else expected;
      if read < expected {
        dropped := dropped + 1;
        return None;
      }
      var pcm := Encode();
      if pcm.None? {
        dropped := dropped + 1;
        return None;
      }
      FramesOfPcm(codec, fast, packets);
      var stamp := AdvanceTimestamp(pcm.value / 2 / if codec.AptxHd? then 3 else 2);
      return Some(Sent(stamp, pcm.value / 4, read));
    }

    // The time stamp of the next frame, modulo 2^32.
    method AdvanceTimestamp(frames: nat) returns (stamp: nat)
      requires timestamp == sent % WORD32
      modifies this`timestamp, this`sent
      ensures stamp == old(timestamp) && sent == old(sent) + frames && timestamp == sent % WORD32
    {
      stamp := timestamp;
      timestamp := (timestamp + frames) % WORD32;
      sent := sent + frames;
    }
  }
}
