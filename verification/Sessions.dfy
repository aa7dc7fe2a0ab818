// Whole PCM sessions: any mix of socket, graph and stream events (pw-floss/src/pw-floss.c).
module Sessions {
  import opened Hci
  import opened Ring
  import opened Pcm
  import opened DownmixSpec
  import opened Downmix
  import opened ClockSpec

  datatype Operation =
    | Writable
    | Readable
    | Quantum(source: seq<Byte>, offset: nat, size: nat, silent: bool, now: Ns)
    | Pull(frames: nat, formatReady: bool)
    | Reply(report: Report, now: Ns)
    | PlaybackRuns
    | PlaybackStops(now: Ns)
    | CaptureRuns
    | CaptureStops

  // How often the graph offers sound and the socket has some, and how many bytes of sound
  // the graph asks for.
  function Quanta(script: seq<Operation>): nat {
    if script == [] then 0 else Quanta(script[..|script| - 1]) + if script[|script| - 1].Quantum? then 1 else 0
  }

  function Reads(script: seq<Operation>): nat {
    if script == [] then 0 else Reads(script[..|script| - 1]) + if script[|script| - 1].Readable? then 1 else 0
  }

  function Pulled(script: seq<Operation>): nat {
    if script == [] then 0
    else Pulled(script[..|script| - 1]) + if script[|script| - 1].Pull? then 2 * script[|script| - 1].frames else 0
  }

  lemma OneMore(script: seq<Operation>, i: nat)
    requires i < |script|
    ensures script[..i + 1][..i] == script[..i] && script[..i + 1][i] == script[i]
  {
  }

  // ------------------------------------------------------------------ voice

  // Every read ends on an empty socket, a full budget or a failure.
  predicate Kept(calls: nat, idle: nat, received: nat) {
    received + QUEUE_SIZE * idle >= QUEUE_SIZE * calls
  }

  method VoiceOperation(p: Pcm, op: Operation) returns (out: seq<Byte>)
    requires p.Valid() && p.hfp
    modifies p, p.playback, p.playback.data, p.voice, p.voice.data, p.microphone, p.microphone.data, p.transport
    ensures p.Valid() && (old(p.failed) ==> p.failed)
    ensures |out| == if op.Pull? then 2 * op.frames else 0
    ensures p.quanta == old(p.quanta) + if op.Quantum? then 1 else 0
    ensures p.idle >= old(p.idle) && |p.incoming| >= |old(p.incoming)|
    ensures op.Readable? ==> p.failed || p.idle > old(p.idle) || |p.incoming| == |old(p.incoming)| + QUEUE_SIZE
  {
    out := [];
    match op {
      case Readable => p.ReadCapture();
      case Quantum(source, offset, size, silent, now) =>
        var _, _, _ := ProcessStereo(p, source, offset, size, silent, now);
      case Pull(frames, formatReady) =>
        ghost var copied;
        out, copied := p.CaptureProcess(frames, formatReady, false);
      case _ => StreamOperation(p, op);
    }
  }

  // The socket takes some sound again, or streams start and stop.
  method StreamOperation(p: Pcm, op: Operation)
    requires p.Valid() && p.hfp
    modifies p`voicePrimed, p`playbackRunning, p`captureRunning, p`capturePrimed, p`removed, p.voice, p.transport, p.microphone
    modifies p`failed, p`busy, p`sent, p.playback
    ensures p.Valid() && (old(p.failed) ==> p.failed)
  {
    match op {
      case Writable => p.FlushAudio();
      case PlaybackRuns => p.playbackRunning := true;
      case PlaybackStops(now) => p.PlaybackStopped(now);
      case CaptureRuns => p.captureRunning := true;
      case CaptureStops => p.CaptureStopped();
      case _ =>
    }
  }

  // A voice session under any mix of operations. Absent failure, voice plus silence sent and
  // queued is the primer plus the incoming bytes rounded down to a sample, what left the
  // microphone ring is whole samples, and what the transport took is a prefix of the rest.
  // The graph gets exactly as many bytes as it asks for.
  method VoiceSession(format: Format, script: seq<Operation>) returns (p: Pcm, delivered: seq<Byte>)
    requires VoiceFormat(format)
    ensures p.Valid() && p.hfp && p.format == format
    ensures p.sent <= p.enqueued && p.transport.audioWritten == |p.sent|
    ensures p.removed % 2 == 0 && p.voiceCredit < 2
    ensures !p.failed ==> |p.enqueued| == format.rate * 2 / 100 + |p.incoming| / 2 * 2
    ensures |delivered| == Pulled(script) && p.quanta == Quanta(script)
    ensures !p.failed ==> Kept(Reads(script), p.idle, |p.incoming|)
  {
    p := new Pcm(format, true);
    delivered := [];
    var i := 0;
    assert script[..0] == [];
    while i < |script|
      invariant 0 <= i <= |script|
      invariant p.Valid() && p.hfp && p.format == format
      invariant fresh(p) && fresh(p.playback) && fresh(p.voice) && fresh(p.microphone) && fresh(p.transport)
      invariant fresh(p.playback.data) && fresh(p.voice.data) && fresh(p.microphone.data)
      invariant |delivered| == Pulled(script[..i]) && p.quanta == Quanta(script[..i])
      invariant !p.failed ==> Kept(Reads(script[..i]), p.idle, |p.incoming|)
    {
      OneMore(script, i);
      var out := VoiceOperation(p, script[i]);
      delivered := delivered + out;
      i := i + 1;
    }
    assert script[..i] == script;
  }

  // ------------------------------------------------------------------ music

  // What an operation adds to the sound: nothing, or the whole chunk of a quantum, mixed
  // when the transport is mono.
  ghost predicate Piece(format: Format, op: Operation, piece: seq<Byte>) {
    piece != [] ==>
      && op.Quantum? && op.source != []
      && var chunk := Chunk(op.source, op.offset % |op.source|, Min(op.size, |op.source|), op.silent);
         if format.channels == 1 then
           exists n: nat :: |chunk| == 2 * Span(format.bits / 8, n) && MixesAll(chunk, piece, format.bits / 8, n)
         else piece == chunk
  }

  method MusicOperation(p: Pcm, op: Operation) returns (ghost piece: seq<Byte>)
    requires p.Valid() && !p.hfp
    modifies p, p.playback, p.playback.data, p.voice, p.voice.data, p.transport
    ensures p.Valid() && p.enqueued == old(p.enqueued) + piece && Piece(p.format, op, piece)
    ensures p.quanta == old(p.quanta) + if op.Quantum? then 1 else 0
  {
    piece := [];
    match op {
      case Writable => p.FlushAudio();
      case Reply(report, now) => p.Report(report, now);
      case Quantum(source, offset, size, silent, now) =>
        piece := MusicQuantum(p, source, offset, size, silent, now);
      case PlaybackRuns => p.playbackRunning := true;
      case PlaybackStops(now) => p.PlaybackStopped(now);
      case _ =>
    }
    assert piece == [] ==> p.enqueued == p.enqueued + piece;
  }

  method MusicQuantum(p: Pcm, source: seq<Byte>, offset: nat, size: nat, silent: bool, now: Ns) returns (ghost piece: seq<Byte>)
    requires p.Valid() && !p.hfp
    modifies p, p.playback, p.playback.data, p.voice, p.voice.data, p.transport
    ensures p.Valid() && p.quanta == old(p.quanta) + 1
    ensures p.enqueued == old(p.enqueued) + piece && Piece(p.format, Quantum(source, offset, size, silent, now), piece)
  {
    if p.format.channels == 1 {
      var taken;
      ghost var n, mixed;
      taken, n, mixed := ProcessStereo(p, source, offset, size, silent, now);
      piece := if taken then mixed else [];
    } else {
      var taken := p.Process(source, offset, size, silent, now);
      piece := if taken then Chunk(source, offset % |source|, Min(size, |source|), silent) else [];
    }
    assert piece == [] ==> p.enqueued + piece == p.enqueued;
  }

  lemma {:induction false} JoinedNext(pieces: seq<seq<Byte>>, piece: seq<Byte>)
    ensures Joined(pieces + [piece]) == Joined(pieces) + piece
    decreases |pieces|
  {
    if pieces == [] {
      assert Joined([piece]) == piece + Joined([]);
    } else {
      JoinedNext(pieces[1..], piece);
      assert (pieces + [piece])[1..] == pieces[1..] + [piece];
    }
  }

  // The primer and the pieces.
  function Sound(format: Format, pieces: seq<seq<Byte>>): seq<Byte> {
    Zeros(Primer(format, false)) + Joined(pieces)
  }

  lemma SoundNext(format: Format, pieces: seq<seq<Byte>>, piece: seq<Byte>)
    ensures Sound(format, pieces + [piece]) == Sound(format, pieces) + piece
  {
    JoinedNext(pieces, piece);
  }

  lemma MusicState(p: Pcm)
    requires p.Valid() && !p.hfp
    ensures p.enqueued == p.sent + p.playback.Contents() && p.transport.audioWritten == |p.sent|
    ensures p.transport.position.valid ==> p.transport.position.bytes <= |p.sent|
    ensures |p.enqueued| % FrameBytes(p.format) == 0 && p.playback.queued <= QueueLimit(p.format) <= QUEUE_SIZE
  {
  }

  // A music session: what is enqueued is the primer and then, in order, the whole chunks of
  // the quanta that were taken, in whole frames; it is what the transport took followed by
  // what is still queued, which never exceeds the limit.
  method MusicSession(format: Format, script: seq<Operation>) returns (p: Pcm, ghost pieces: seq<seq<Byte>>)
    requires MusicFormat(format)
    ensures p.Valid() && !p.hfp && p.format == format
    ensures |pieces| == |script| && forall i :: 0 <= i < |script| ==> Piece(format, script[i], pieces[i])
    ensures p.enqueued == Sound(format, pieces) && p.quanta == Quanta(script)
    ensures p.enqueued == p.sent + p.playback.Contents() && p.transport.audioWritten == |p.sent|
    ensures p.transport.position.valid ==> p.transport.position.bytes <= |p.sent|
    ensures |p.enqueued| % FrameBytes(format) == 0 && p.playback.queued <= QueueLimit(format) <= QUEUE_SIZE
  {
    p := new Pcm(format, false);
    pieces := [];
    var i := 0;
    assert script[..0] == [] && Sound(format, []) == Zeros(Primer(format, false));
    while i < |script|
      invariant 0 <= i <= |script|
      invariant p.Valid() && !p.hfp && p.format == format
      invariant fresh(p) && fresh(p.playback) && fresh(p.voice) && fresh(p.microphone) && fresh(p.transport)
      invariant fresh(p.playback.data) && fresh(p.voice.data) && fresh(p.microphone.data)
      invariant |pieces| == i && forall k :: 0 <= k < i ==> Piece(format, script[k], pieces[k])
      invariant p.enqueued == Sound(format, pieces) && p.quanta == Quanta(script[..i])
    {
      OneMore(script, i);
      ghost var piece := MusicOperation(p, script[i]);
      SoundNext(format, pieces, piece);
      pieces := pieces + [piece];
      i := i + 1;
    }
    assert script[..i] == script;
    MusicState(p);
  }
}
