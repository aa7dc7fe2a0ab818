// The PCM bridge: playback, voice and capture rings between the audio graph and the
// transport socket (pw-floss/src/pw-floss.c).
module Pcm {
  import opened Arithmetic
  import opened Hci
  import opened Ring
  import opened Clock
  import opened ClockSpec

  datatype Format = Format(rate: nat, channels: nat, bits: nat)

  // Formats the configuration check accepts: music, and voice with its two codecs.
  predicate MusicFormat(f: Format) {
    && f.rate in {44100, 48000, 88200, 96000}
    && f.channels in {1, 2}
    && f.bits in {16, 24, 32}
  }

  predicate VoiceFormat(f: Format) {
    f.rate in {8000, 16000} && f.channels == 1 && f.bits == 16
  }

  predicate Accepted(f: Format, hfp: bool) {
    if hfp then VoiceFormat(f) else MusicFormat(f)
  }

  function FrameBytes(f: Format): nat {
    f.channels * (f.bits / 8)
  }

  // Bytes per second.
  function Speed(f: Format): nat {
    f.rate * f.channels * (f.bits / 8)
  }

  // One tenth of a second.
  function QueueLimit(f: Format): nat {
    Speed(f) / 10
  }

  // Thirty milliseconds.
  function TargetBytes(f: Format): nat {
    f.rate * 3 / 100 * FrameBytes(f)
  }

  // Silence queued when a transport starts: 10 ms of voice or 30 ms of music.
  function Primer(f: Format, hfp: bool): nat {
    if hfp then f.rate * 2 / 100 else TargetBytes(f)
  }

  // No accepted format overflows the rings, and every size is a whole number of frames.
  lemma LimitsFit(f: Format, hfp: bool)
    requires Accepted(f, hfp)
    ensures FrameBytes(f) > 0
    ensures TargetBytes(f) <= QueueLimit(f) <= QUEUE_SIZE
    ensures QueueLimit(f) % FrameBytes(f) == 0 && TargetBytes(f) % FrameBytes(f) == 0
    ensures Primer(f, hfp) % FrameBytes(f) == 0 && Primer(f, hfp) < QueueLimit(f)
    ensures hfp ==> FrameBytes(f) == 2 && TargetBytes(f) < QueueLimit(f)
  {
    if hfp {
      if f.rate == 8000 {
      } else {
        assert f.rate == 16000;
      }
    } else {
      MusicLimits(f);
    }
  }

  // The limit is exactly a tenth of a second, the target 30 ms, the primer 10 ms of voice or
  // 30 ms of music.
  lemma LimitsInTime(f: Format, hfp: bool)
    requires Accepted(f, hfp)
    ensures var second := f.rate * FrameBytes(f);
            10 * QueueLimit(f) == second && 1000 * TargetBytes(f) == 30 * second && 1000 * Primer(f, hfp) == (if hfp then 10 else 30) * second
  {
    var hundredth, n := f.rate / 100, FrameBytes(f);
    assert f.rate == 100 * hundredth;
    assert Speed(f) == 10 * (10 * hundredth * n) by {
      assert f.rate * f.channels * (f.bits / 8) == f.rate * n;
    }
    assert TargetBytes(f) == 3 * hundredth * n;
    Thirty(hundredth, n);
  }

  lemma Thirty(hundredth: nat, n: nat)
    ensures 1000 * (3 * hundredth * n) == 30 * (100 * hundredth * n)
  {
  }

  lemma MusicLimits(f: Format)
    requires MusicFormat(f)
    ensures FrameBytes(f) in {2, 3, 4, 6, 8} && Speed(f) > 0
    ensures QueueLimit(f) == f.rate / 10 * FrameBytes(f) && f.rate % 100 == 0
    ensures TargetBytes(f) < QueueLimit(f) <= QUEUE_SIZE
    ensures QueueLimit(f) % FrameBytes(f) == 0 && TargetBytes(f) % FrameBytes(f) == 0
  {
    var n := FrameBytes(f);
    assert n == f.channels * 2 || n == f.channels * 3 || n == f.channels * 4;
    TenthOf(f.rate / 10, n);
    Multiple(f.rate / 10, n);
    Multiple(f.rate * 3 / 100, n);
  }

  lemma TenthOf(tenth: nat, n: nat)
    ensures 10 * tenth * n / 10 == tenth * n
  {
    assert 10 * tenth * n == 10 * (tenth * n);
  }

  lemma Multiple(k: nat, n: nat)
    requires n > 0
    ensures k * n % n == 0
  {
    MultipleIsZero(n, k);
  }

  class Pcm {
    const playback: Queue
    const voice: Queue
    const microphone: Queue
    const transport: TransportPosition
    const hfp: bool
    const format: Format
    const queueLimit: nat
    var failed: bool
    var voicePrimed: bool
    var capturePrimed: bool
    var playbackRunning: bool
    var captureRunning: bool
    var voiceCredit: nat
    var overruns: nat
    ghost var busy: nat           // how often the socket would not take more
    ghost var idle: nat           // how often it had nothing to read
    ghost var enqueued: seq<Byte> // everything queued for the transport in this session
    ghost var sent: seq<Byte>     // what the transport accepted of it
    ghost var incoming: seq<Byte> // everything received from the transport
    ghost var removed: nat        // how much of it left the microphone ring
    ghost var quanta: nat         // graph quanta that were offered

    ghost predicate Apart()
      reads this
    {
      && playback != voice && playback != microphone && voice != microphone
      && playback.data != voice.data && playback.data != microphone.data && voice.data != microphone.data
    }

    ghost predicate Limits()
      reads this, playback, voice, microphone
    {
      && Apart() && playback.Valid() && voice.Valid() && microphone.Valid()
      && queueLimit <= QUEUE_SIZE
      && playback.queued <= queueLimit && voice.queued <= queueLimit && microphone.queued <= queueLimit
    }

    ghost predicate Sized() {
      Accepted(format, hfp) && queueLimit == QueueLimit(format)
    }

    // Sent plus queued is everything enqueued, in whole frames.
    ghost predicate PlaybackKept()
      reads this, playback, playback.data, transport
      requires playback.Valid()
    {
      && enqueued == sent + playback.Contents()
      && transport.Valid() && transport.audioWritten == |sent|
    }

    // Queued here, or submitted and not acknowledged by the transport.
    ghost function Backlog(): int
      reads playback`queued, transport
    {
      playback.queued + transport.audioWritten - transport.position.bytes
    }

    // The microphone ring holds the incoming stream from a sample boundary on.
    ghost predicate CaptureKept()
      reads this, microphone, microphone.data
      requires microphone.Valid()
    {
      && removed <= |incoming| && removed % 2 == 0
      && microphone.Contents() == incoming[removed..]
    }

    // The voice ring holds whole samples at even positions.
    ghost predicate VoiceEven()
      reads this, voice
    {
      voice.queued % 2 == 0 && voice.readPos % 2 == 0
    }

    // Voice out, silence included, follows voice in sample by sample.
    ghost predicate CreditKept()
      reads this, voice
    {
      && VoiceEven()
      && voiceCredit == |incoming| % 2
      && (!failed ==> |enqueued| == Primer(format, true) + |incoming| - voiceCredit)
    }

    ghost predicate Valid()
      reads this, playback, voice, microphone, playback.data, microphone.data, transport
    {
      && Sized() && Limits() && PlaybackKept()
      && (if hfp then CaptureKept() && CreditKept() else |enqueued| % FrameBytes(format) == 0)
    }

    constructor (format: Format, hfp: bool)
      requires Accepted(format, hfp)
      ensures Valid() && this.format == format && this.hfp == hfp && !failed
      ensures enqueued == Zeros(Primer(format, hfp)) && incoming == [] && quanta == 0 && idle == 0
      ensures fresh(playback) && fresh(voice) && fresh(microphone) && fresh(transport)
      ensures fresh(playback.data) && fresh(voice.data) && fresh(microphone.data)
    {
      playback := new Queue();
      voice := new Queue();
      microphone := new Queue();
      transport := new TransportPosition();
      this.hfp, this.format, queueLimit := hfp, format, QueueLimit(format);
      failed, voicePrimed, capturePrimed, playbackRunning, captureRunning := false, false, false, false, false;
      voiceCredit, overruns, busy, idle := 0, 0, 0, 0;
      enqueued, sent, incoming, removed, quanta := Zeros(Primer(format, hfp)), [], [], 0, 0;
      new;
      LimitsFit(format, hfp);
      playback.Append(Zeros(Primer(format, hfp)));
    }

    // A system call on the socket: some of the bytes, an error, or "try again".
    method Send(limit: nat) returns (n: int, again: bool)
      modifies this`busy
      ensures n <= limit && busy == old(busy) + if n < 0 && again then 1 else 0
    {
      n :| n <= limit;
      again := *;
      if n < 0 && again {
        busy := busy + 1;
      }
    }

    // Hand queued PCM to the socket, until nothing is left or it takes no more.
    method FlushAudio()
      requires Limits() && PlaybackKept()
      modifies this`failed, this`busy, transport`audioWritten, this`sent, playback
      ensures Limits() && PlaybackKept() && old(sent) <= sent && playback.queued <= old(playback.queued)
      ensures old(failed) ==> failed
      ensures playback.queued == 0 || failed || busy > old(busy)
    {
      while playback.queued > 0 && !failed
        invariant Limits() && PlaybackKept() && old(sent) <= sent && playback.queued <= old(playback.queued)
        invariant (old(failed) ==> failed) && busy == old(busy)
        decreases playback.queued, !failed
      {
        var n, again := Send(playback.Readable());
        if n < 0 && again {
          break;
        }
        if n <= 0 {
          failed := true;
          return;
        }
        var bytes := playback.Peek(n);
        assert sent + playback.Contents() == (sent + bytes) + playback.Contents()[n..];
        playback.Drop(n);
        sent := sent + bytes;
        transport.Written(n);
      }
    }

    method QueueOutput(bytes: seq<Byte>) returns (ok: bool)
      requires Limits() && PlaybackKept()
      modifies this`failed, this`enqueued, playback`queued, playback.data
      ensures Limits() && PlaybackKept() && (ok <==> |bytes| <= queueLimit - old(playback.queued))
      ensures enqueued == if ok then old(enqueued) + bytes else old(enqueued)
      ensures failed == (old(failed) || !ok)
    {
      if |bytes| > queueLimit - playback.queued {
        failed := true;
        return false;
      }
      playback.Append(bytes);
      enqueued := enqueued + bytes;
      assert enqueued == sent + playback.Contents();
      return true;
    }

    // Whole samples, and what is left of the last one.
    method Owed(credit: nat) returns (wanted: nat, rest: nat)
      ensures wanted + rest == credit && wanted % 2 == 0 && rest == credit % 2
    {
      wanted := credit - credit % 2;
      rest := credit - wanted;
    }

    // One outgoing sample for each complete incoming one: queued voice first, then silence.
    method VoicePlaybackCredit(n: nat)
      requires hfp && Limits() && PlaybackKept() && VoiceEven()
      modifies this`failed, this`busy, transport`audioWritten, this`sent, this`enqueued, this`voiceCredit, this`voicePrimed
      modifies playback, playback.data, voice
      ensures Limits() && PlaybackKept() && VoiceEven()
      ensures (old(failed) ==> failed) && old(sent) <= sent
      ensures voiceCredit == (old(voiceCredit) + n) % 2
      ensures voicePrimed <==> old(voicePrimed) || old(voice.queued) >= TargetBytes(format)
      ensures !failed ==>
                var wanted := old(voiceCredit) + n - voiceCredit;
                var k := if voicePrimed then Min(wanted, old(voice.queued)) else 0;
                && enqueued == old(enqueued) + old(voice.Contents())[..k] + Zeros(wanted - k)
                && voice.Contents() == old(voice.Contents())[k..]
    {
      var wanted, rest := Owed(voiceCredit + n);
      voiceCredit := rest;
      PrimeVoice();
      Refill(wanted);
      FlushAudio();
    }

    // Voice starts once 30 ms of it are queued.
    method PrimeVoice()
      requires Limits() && PlaybackKept()
      modifies this`failed, this`busy, transport`audioWritten, this`sent, this`voicePrimed, playback
      ensures Limits() && PlaybackKept() && old(sent) <= sent && (old(failed) ==> failed)
      ensures voicePrimed <==> old(voicePrimed) || voice.queued >= TargetBytes(format)
    {
      FlushAudio();
      if !voicePrimed && voice.queued >= TargetBytes(format) {
        voicePrimed := true;
      }
    }

    // Exactly `wanted` bytes, speech if it was primed, silence for the rest.
    method Refill(wanted: nat)
      requires Limits() && PlaybackKept() && VoiceEven() && wanted % 2 == 0
      modifies this`failed, this`enqueued, playback`queued, playback.data, voice
      ensures Limits() && PlaybackKept() && VoiceEven()
      ensures old(failed) ==> failed
      ensures !failed ==>
                var k := if voicePrimed then Min(wanted, old(voice.queued)) else 0;
                && enqueued == old(enqueued) + old(voice.Contents())[..k] + Zeros(wanted - k)
                && voice.Contents() == old(voice.Contents())[k..]
    {
      var left := wanted;
      if voicePrimed {
        left := SendVoice(wanted);
      }
      ghost var spoken := enqueued;
      if left > 0 && !failed {
        var _ := QueueOutput(Zeros(left));
      }
      assert !failed ==> enqueued == spoken + Zeros(left);
    }

    // Queued voice goes out, one contiguous piece at a time.
    method SendVoice(amount: nat) returns (left: nat)
      requires Limits() && PlaybackKept() && VoiceEven() && amount % 2 == 0
      modifies this`failed, this`enqueued, playback`queued, playback.data, voice
      ensures Limits() && PlaybackKept() && VoiceEven()
      ensures old(failed) ==> failed
      ensures !failed ==>
                var k := Min(amount, old(voice.queued));
                && left == amount - k
                && enqueued == old(enqueued) + old(voice.Contents())[..k]
                && voice.Contents() == old(voice.Contents())[k..]
    {
      ghost var speech, base := voice.Contents(), enqueued;
      left := amount;
      while left > 0 && voice.queued > 0 && !failed
        invariant Limits() && PlaybackKept() && VoiceEven() && left <= amount && left % 2 == 0
        invariant old(failed) ==> failed
        invariant voice.queued + amount == |speech| + left
        invariant !failed ==> enqueued + voice.Contents() == base + speech
        decreases left, !failed
      {
        var count := Min(left, voice.Readable());
        var ok := MoveVoice(count);
        if !ok {
          return;
        }
        left := left - count;
      }
      if !failed {
        Boundary(base, speech, enqueued, voice.Contents(), amount - left);
      }
    }

    method MoveVoice(count: nat) returns (ok: bool)
      requires Limits() && PlaybackKept() && VoiceEven() && count <= voice.Readable() && count % 2 == 0
      modifies this`failed, this`enqueued, playback`queued, playback.data, voice
      ensures Limits() && PlaybackKept() && VoiceEven()
      ensures failed == (old(failed) || !ok)
      ensures ok ==> enqueued + voice.Contents() == old(enqueued) + old(voice.Contents()) && voice.queued == old(voice.queued) - count
    {
      ghost var before, speech := enqueued, voice.Contents();
      var bytes := voice.Peek(count);
      ok := QueueOutput(bytes);
      if ok {
        EvenPlaces(voice.readPos, voice.queued, count);
        voice.Drop(count);
        Rejoin(before, speech, count);
      }
    }

    // ---------------------------------------------------------------- capture

    // Remove n bytes, whole samples, from the microphone ring.
    method Shed(n: nat)
      requires Limits() && CaptureKept() && n <= microphone.queued && n % 2 == 0
      modifies this`removed, microphone
      ensures Limits() && CaptureKept() && removed == old(removed) + n && microphone.queued == old(microphone.queued) - n
    {
      assert incoming[removed..][n..] == incoming[removed + n..];
      microphone.Drop(n);
      removed := removed + n;
    }

    // While nobody records, only a partial sample is kept.
    method DiscardIdleCapture()
      requires Limits() && CaptureKept()
      modifies this`removed, microphone
      ensures Limits() && CaptureKept() && microphone.queued == old(microphone.queued) % 2
      ensures removed == old(removed) + old(microphone.queued) - microphone.queued
    {
      Shed(microphone.queued - microphone.queued % 2);
    }

    // A delayed consumer: keep the newest 30 ms of whole samples.
    method Overrun()
      requires Valid() && hfp && microphone.queued == queueLimit
      modifies this`removed, this`overruns, microphone
      ensures Valid() && microphone.queued < queueLimit && microphone.queued >= TargetBytes(format)
      ensures microphone.queued <= TargetBytes(format) + 1 && overruns == old(overruns) + 1
    {
      LimitsFit(format, true);
      var keep := TargetBytes(format);
      Shed((microphone.queued - keep) / 2 * 2);
      overruns := overruns + 1;
    }

    // One successful read from the socket.
    method Receive(packet: seq<Byte>)
      requires Valid() && hfp && 0 < |packet| <= queueLimit - microphone.queued
      modifies this`failed, this`busy, transport`audioWritten, this`sent, this`enqueued, this`voiceCredit, this`voicePrimed, this`incoming
      modifies playback, playback.data, voice, microphone, microphone.data
      ensures Valid() && incoming == old(incoming) + packet && removed == old(removed)
      ensures (old(failed) ==> failed) && old(sent) <= sent
    {
      assert (incoming + packet)[removed..] == incoming[removed..] + packet;
      CreditCarries(|incoming|, |packet|);
      microphone.Append(packet);
      incoming := incoming + packet;
      VoicePlaybackCredit(|packet|);
    }

    // Make room for the next read; false when there is nothing to read or the socket failed.
    method Prepare() returns (more: bool)
      requires Valid() && hfp
      modifies this`failed, this`idle, this`removed, this`overruns, microphone
      ensures Valid() && old(removed) <= removed && (old(failed) ==> failed) && idle >= old(idle)
      ensures if more then microphone.queued < queueLimit && failed == old(failed) else failed || idle > old(idle)
      ensures !captureRunning ==> microphone.queued < 2
      ensures overruns >= old(overruns) && (captureRunning && overruns == old(overruns) ==> removed == old(removed))
    {
      if !captureRunning {
        DiscardIdleCapture();
      }
      LimitsFit(format, true);
      if microphone.queued == queueLimit {
        var available: int, retry: bool := *, *;
        if available < 0 && retry {
          idle := idle + 1;
          return false;
        }
        if available <= 0 {
          failed := true;
          return false;
        }
        Overrun();
      }
      return true;
    }

    // Read until the socket has nothing left, within a budget of one ring.
    method ReadCapture()
      requires Valid() && hfp
      modifies this`failed, this`busy, transport`audioWritten, this`sent, this`enqueued, this`voiceCredit, this`voicePrimed, this`incoming
      modifies this`idle, this`removed, this`overruns, playback, playback.data, voice, microphone, microphone.data
      ensures Valid() && old(incoming) <= incoming && old(removed) <= removed
      ensures |incoming| <= |old(incoming)| + QUEUE_SIZE
      ensures (old(failed) ==> failed) && (failed || idle > old(idle) || |incoming| == |old(incoming)| + QUEUE_SIZE)
      ensures idle >= old(idle) && (!captureRunning ==> microphone.queued < 2)
      ensures captureRunning && overruns == old(overruns) ==> removed == old(removed)
    {
      var budget: nat := QUEUE_SIZE;
      while budget > 0 && !failed
        invariant Valid() && old(incoming) <= incoming && old(removed) <= removed
        invariant |incoming| == |old(incoming)| + QUEUE_SIZE - budget
        invariant (old(failed) ==> failed) && idle >= old(idle)
        invariant overruns >= old(overruns) && (captureRunning && overruns == old(overruns) ==> removed == old(removed))
        decreases budget
      {
        var n := ReadOnce(budget);
        if n == 0 {
          return;
        }
        budget := budget - n;
      }
      if !captureRunning {
        DiscardIdleCapture();
      }
    }

    // One read of at most `budget` bytes; 0 when there is nothing to read or the socket failed.
    method ReadOnce(budget: nat) returns (n: nat)
      requires Valid() && hfp && budget > 0
      modifies this`failed, this`busy, transport`audioWritten, this`sent, this`enqueued, this`voiceCredit, this`voicePrimed, this`incoming
      modifies this`idle, this`removed, this`overruns, playback, playback.data, voice, microphone, microphone.data
      ensures Valid() && old(incoming) <= incoming && old(removed) <= removed && (old(failed) ==> failed)
      ensures n <= budget && |incoming| == |old(incoming)| + n && idle >= old(idle)
      ensures n == 0 ==> failed || idle > old(idle)
      ensures n == 0 && !captureRunning ==> microphone.queued < 2
      ensures overruns >= old(overruns) && (captureRunning && overruns == old(overruns) ==> removed == old(removed))
    {
      var more := Prepare();
      if !more {
        return 0;
      }
      var count := Min(budget, Min(queueLimit - microphone.queued, QUEUE_SIZE - microphone.WritePos()));
      var got: int, again: bool := *, *;
      if got < 0 && again {
        idle := idle + 1;
        return 0;
      }
      if got <= 0 {
        failed := true;
        return 0;
      }
      assert 0 < |Zeros(1)| <= count;
      var packet: seq<Byte> :| 0 < |packet| <= count;
      Receive(packet);
      return |packet|;
    }

    // The first n bytes, whole samples, leave the microphone ring for the graph.
    method Pull(n: nat) returns (bytes: seq<Byte>)
      requires Limits() && CaptureKept() && n <= microphone.queued && n % 2 == 0
      modifies this`removed, microphone
      ensures Limits() && CaptureKept() && removed == old(removed) + n
      ensures bytes == incoming[old(removed)..old(removed) + n]
    {
      bytes := microphone.Read(n);
      assert incoming[removed..][..n] == incoming[removed..removed + n];
      Shed(n);
    }

    method PrimeCapture()
      modifies this`capturePrimed
      ensures old(capturePrimed) ==> capturePrimed
      ensures capturePrimed <==> old(capturePrimed) || microphone.queued >= TargetBytes(format)
    {
      if !capturePrimed && microphone.queued >= TargetBytes(format) {
        capturePrimed := true;
      }
    }

    // The graph pulls `frames` samples: whole samples of the incoming stream, in order, and
    // silence for the rest.
    method CaptureProcess(frames: nat, formatReady: bool, transitioning: bool) returns (out: seq<Byte>, ghost copied: nat)
      requires Valid() && hfp
      modifies this`capturePrimed, this`removed, microphone
      ensures Valid() && copied % 2 == 0 && removed == old(removed) + copied <= |incoming|
      ensures |out| == 2 * frames && copied <= |out|
      ensures out == incoming[old(removed)..old(removed) + copied] + Zeros(|out| - copied)
      ensures capturePrimed <==> old(capturePrimed) || old(microphone.queued) >= TargetBytes(format)
      ensures copied ==
              if capturePrimed && !transitioning && formatReady && !failed
              then Min(2 * frames, old(microphone.queued) - old(microphone.queued) % 2) else 0
    {
      PrimeCapture();
      var n := 0;
      if !transitioning && formatReady && capturePrimed && !failed {
        n := Share(frames, microphone.queued);
      }
      var bytes := Pull(n);
      out := bytes + Zeros(2 * frames - n);
      copied := n;
    }

    // How much of the queued bytes a request gets, in whole samples.
    method Share(frames: nat, queued: nat) returns (n: nat)
      ensures n == Min(2 * frames, queued - queued % 2) && n % 2 == 0 && n <= queued
    {
      n := Min(2 * frames, queued - queued % 2);
    }

    // ---------------------------------------------------------------- playback

    // One graph quantum, from the buffer that enters the rings (the down-mixed one when the
    // transport is mono): all of it is queued, or none of it. Music waits for a transport
    // that is more than 100 ms behind, and fails on a stalled one.
    method Process(source: seq<Byte>, chunkOffset: nat, chunkSize: nat, silent: bool, now: Ns) returns (taken: bool)
      requires Valid()
      modifies this`failed, this`quanta, this`busy, transport`audioWritten, this`sent, this`enqueued, playback, playback.data, voice`queued, voice.data
      ensures Valid() && quanta == old(quanta) + 1 && (old(failed) ==> failed && !taken)
      ensures taken ==>
                && source != [] && Min(chunkSize, |source|) % FrameBytes(format) == 0
                && var chunk := Chunk(source, chunkOffset % |source|, Min(chunkSize, |source|), silent);
                   if hfp then voice.Contents() == old(voice.Contents()) + chunk && enqueued == old(enqueued)
                   else enqueued == old(enqueued) + chunk
      ensures !taken ==> enqueued == old(enqueued) && voice.Contents() == old(voice.Contents())
      ensures hfp && old(!failed) && source != [] && Min(chunkSize, |source|) % FrameBytes(format) == 0 ==>
                (taken <==> Min(chunkSize, |source|) <= queueLimit - old(voice.queued)) && !failed
      ensures !hfp && !taken && !failed && source != [] ==>
                (transport.position.valid && 10 * old(Backlog()) > Speed(format)) || Min(chunkSize, |source|) > queueLimit - playback.queued
      ensures !hfp && taken && transport.position.valid ==>
                10 * old(Backlog()) <= 3 * Speed(format)
                && !Stale(transport.position, old(transport.audioWritten), now, playbackRunning)
    {
      quanta := quanta + 1;
      if failed {
        return false;
      }
      if source == [] {
        failed := chunkSize != 0;
        return false;
      }
      var offset, size := chunkOffset % |source|, Min(chunkSize, |source|);
      if size % FrameBytes(format) != 0 {
        failed := true;
        return false;
      }
      if hfp {
        taken := QueueVoice(source, offset, size, silent);
      } else {
        taken := OfferMusic(source, offset, size, silent, now);
      }
    }

    // Music, unless the transport has stalled or is too far behind.
    method OfferMusic(source: seq<Byte>, offset: nat, size: nat, silent: bool, now: Ns) returns (taken: bool)
      requires Valid() && !failed && !hfp && size % FrameBytes(format) == 0 && source != [] && offset < |source|
      modifies this`failed, this`busy, transport`audioWritten, this`sent, this`enqueued, playback, playback.data
      ensures Valid()
      ensures enqueued == old(enqueued) + if taken then Chunk(source, offset, size, silent) else []
      ensures transport.position.valid && Stale(transport.position, old(transport.audioWritten), now, playbackRunning) ==> failed && !taken
      ensures !taken && !failed ==> (transport.position.valid && 10 * old(Backlog()) > Speed(format)) || size > queueLimit - playback.queued
      ensures taken && transport.position.valid ==> 10 * old(Backlog()) <= 3 * Speed(format)
    {
      MusicLimits(format);
      var behind, stalled := transport.IsBehind(playback.queued, now, Speed(format), playbackRunning);
      if stalled || behind {
        failed := stalled;
        assert enqueued == enqueued + [];
        return false;
      }
      taken := QueueMusic(source, offset, size, silent);
    }

    method QueueVoice(source: seq<Byte>, offset: nat, size: nat, silent: bool) returns (taken: bool)
      requires Valid() && hfp && size % FrameBytes(format) == 0 && source != [] && offset < |source|
      modifies voice`queued, voice.data
      ensures Valid() && (taken <==> size <= queueLimit - old(voice.queued))
      ensures voice.Contents() == old(voice.Contents()) + if taken then Chunk(source, offset, size, silent) else []
    {
      LimitsFit(format, true);
      if size > queueLimit - voice.queued {
        assert voice.Contents() == voice.Contents() + [];
        return false;
      }
      EvenSum(voice.queued, size);
      voice.AppendChunk(source, offset, size, silent);
      return true;
    }

    method QueueMusic(source: seq<Byte>, offset: nat, size: nat, silent: bool) returns (taken: bool)
      requires Valid() && !hfp && size % FrameBytes(format) == 0 && source != [] && offset < |source|
      modifies this`failed, this`busy, transport`audioWritten, this`sent, this`enqueued, playback, playback.data
      ensures Valid()
      ensures enqueued == old(enqueued) + if taken then Chunk(source, offset, size, silent) else []
      ensures !taken ==> failed || size > queueLimit - playback.queued
    {
      FlushAudio();
      if failed || size > queueLimit - playback.queued {
        assert enqueued == enqueued + [];
        return false;
      }
      ghost var chunk := Chunk(source, offset, size, silent);
      playback.AppendChunk(source, offset, size, silent);
      enqueued := enqueued + chunk;
      assert enqueued == sent + playback.Contents();
      WholeFrames(format, |enqueued| - size, size);
      FlushAudio();
      return true;
    }

    // A position report from the transport; one that is not acceptable fails the bridge.
    method Report(r: ClockSpec.Report, now: Ns)
      requires Valid()
      modifies this`failed, transport`position
      ensures Valid() && failed == (old(failed) || !Acceptable(old(transport.position), r, transport.audioWritten, now))
      ensures if Acceptable(old(transport.position), r, transport.audioWritten, now)
              then transport.position.valid && transport.position.bytes == r.bytes <= |sent|
              else transport.position == old(transport.position)
    {
      var accepted := transport.PositionReceived(r, now, playbackRunning);
      failed := failed || !accepted;
    }

    // The playback stream stopped or the capture stream stopped.
    method PlaybackStopped(now: Ns)
      requires Valid()
      modifies this`voicePrimed, this`playbackRunning, voice, transport`position
      ensures Valid() && voice.Contents() == [] && !playbackRunning
      ensures transport.position == old(transport.position).(progress := now)
    {
      playbackRunning := false;
      voice.Clear();
      voicePrimed := false;
      transport.PlaybackStopped(now);
    }

    method CaptureStopped()
      requires Valid() && hfp
      modifies this`captureRunning, this`capturePrimed, this`removed, microphone
      ensures Valid() && !captureRunning && microphone.queued < 2
    {
      captureRunning := false;
      DiscardIdleCapture();
      capturePrimed := false;
    }
  }

  lemma WholeFrames(f: Format, a: nat, b: nat)
    requires MusicFormat(f) && a % FrameBytes(f) == 0 && b % FrameBytes(f) == 0
    ensures (a + b) % FrameBytes(f) == 0
  {
    MusicLimits(f);
    var n := FrameBytes(f);
    assert a + b == n * (a / n + b / n);
    MultipleIsZero(n, a / n + b / n);
  }

  lemma CreditCarries(received: nat, n: nat)
    ensures (received % 2 + n) % 2 == (received + n) % 2
  {
  }

  lemma EvenSum(a: nat, b: nat)
    requires a % 2 == 0 && b % 2 == 0
    ensures (a + b) % 2 == 0
  {
  }

  lemma EvenPlaces(pos: nat, queued: nat, n: nat)
    requires pos < QUEUE_SIZE && n <= queued <= QUEUE_SIZE && pos % 2 == 0 && queued % 2 == 0 && n % 2 == 0
    ensures Index(pos, n) % 2 == 0 && (queued - n) % 2 == 0
  {
  }

  lemma Rejoin(before: seq<Byte>, s: seq<Byte>, n: nat)
    requires n <= |s|
    ensures (before + s[..n]) + s[n..] == before + s
  {
  }

  // Where two parts of the same bytes meet.
  lemma Boundary(base: seq<Byte>, s: seq<Byte>, left: seq<Byte>, right: seq<Byte>, k: nat)
    requires left + right == base + s && k <= |s| && |right| == |s| - k
    ensures left == base + s[..k] && right == s[k..]
  {
    assert left == (left + right)[..|left|] && right == (left + right)[|left|..];
  }
}
