// The main loop of the USB transport (floss-usb/src/main.rs, `run`): received fragments and
// host packets become actions, and actions are executed in order against the USB owner.
module Daemon {
  import opened Wrappers
  import opened Hci
  import opened TransportSpec
  import opened Transport
  import opened Transfers
  import opened UsbOwner

  const MAX_PENDING := 256
  const HOST_BURST := 32

  datatype Stop =
    | ReceiveOverflow
    | Protocol(error: Error)
    | ActionOverflow
    | HostIo
    | EndpointChange(rc: int)
    | Transmit(rc: int)
    | Events(rc: int)

  datatype Progress = Continue | Stopped(reason: Stop)

  // Records written to the virtual controller, and packets handed to the USB owner.
  function HostLog(trace: seq<Action>): seq<Packet> {
    if trace == [] then []
    else
      HostLog(trace[..|trace| - 1]) +
      match trace[|trace| - 1] case Host(p) => [p] case _ => []
  }

  function UsbLog(trace: seq<Action>): seq<Packet> {
    if trace == [] then []
    else
      UsbLog(trace[..|trace| - 1]) +
      match trace[|trace| - 1] case Usb(p) => [p] case _ => []
  }

  lemma ExtendLogs(trace: seq<Action>, a: Action)
    ensures HostLog(trace + [a]) == HostLog(trace) + if a.Host? then [a.packet] else []
    ensures UsbLog(trace + [a]) == UsbLog(trace) + if a.Usb? then [a.packet] else []
  {
    assert (trace + [a])[..|trace|] == trace;
  }

  // The fragments and the host packets among the inputs of a run.
  function UsbInputs(inputs: seq<Input>): seq<(Byte, Packet)> {
    if inputs == [] then []
    else
      UsbInputs(inputs[..|inputs| - 1]) +
      match inputs[|inputs| - 1] case FromUsb(kind, bytes) => [(kind, bytes)] case FromHost(_) => []
  }

  function HostInputs(inputs: seq<Input>): seq<Packet> {
    if inputs == [] then []
    else
      HostInputs(inputs[..|inputs| - 1]) +
      match inputs[|inputs| - 1] case FromUsb(_, _) => [] case FromHost(packet) => [packet]
  }

  lemma ExtendInputs(inputs: seq<Input>, input: Input)
    ensures UsbInputs(inputs + [input]) == UsbInputs(inputs) + if input.FromUsb? then [(input.kind, input.bytes)] else []
    ensures HostInputs(inputs + [input]) == HostInputs(inputs) + if input.FromHost? then [input.packet] else []
  {
    assert (inputs + [input])[..|inputs|] == inputs;
  }

  // Fragments as inputs of the link machine.
  function Fragment(item: (Byte, Packet)): Input {
    FromUsb(item.0, item.1)
  }

  function Fragments(queue: seq<(Byte, Packet)>): (r: seq<Input>)
    ensures |r| == |queue|
  {
    seq(|queue|, i requires 0 <= i < |queue| => Fragment(queue[i]))
  }

  // The inputs go on with the fragments of a queue.
  predicate Includes(inputs: seq<Input>, before: seq<Input>, queue: seq<(Byte, Packet)>) {
    before + Fragments(queue) <= inputs
  }

  lemma IncludesStill(longer: seq<Input>, inputs: seq<Input>, before: seq<Input>, queue: seq<(Byte, Packet)>)
    requires Includes(inputs, before, queue) && inputs <= longer
    ensures Includes(longer, before, queue)
  {
  }

  lemma FragmentsNext(before: seq<Input>, queue: seq<(Byte, Packet)>, n: nat)
    requires n < |queue|
    ensures before + Fragments(queue[..n + 1]) == before + Fragments(queue[..n]) + [Fragment(queue[n])]
    ensures queue[n..][0] == queue[n] && queue[n..][1..] == queue[n + 1..] && queue[..|queue|] == queue
  {
  }

  lemma HeardNext(inputs: seq<Input>, queue: seq<(Byte, Packet)>)
    requires queue != []
    ensures UsbInputs(inputs + [Fragment(queue[0])]) + queue[1..] == UsbInputs(inputs) + queue
    ensures HostInputs(inputs + [Fragment(queue[0])]) == HostInputs(inputs)
  {
    ExtendInputs(inputs, Fragment(queue[0]));
  }

  // ------------------------------------------------------------------ the virtual controller

  datatype Reading = Closed | WouldBlock | Interrupted | Record(packet: Packet)

  class VirtualHci {
    ghost var delivered: seq<Packet> // records the host wrote and the daemon read
    ghost var written: seq<Packet>   // records the daemon wrote
    ghost var attempts: nat            // attempts to read
    ghost var dry: bool              // the last attempt found nothing
    ghost var failures: nat          // reads and writes that failed

    constructor ()
      ensures delivered == [] && written == []
    {
      delivered, written, attempts, dry, failures := [], [], 0, false, 0;
    }

    method Read() returns (r: Reading)
      modifies this`delivered, this`attempts, this`dry, this`failures
      ensures delivered == old(delivered) + if r.Record? then [r.packet] else []
      ensures attempts == old(attempts) + 1 && dry == r.WouldBlock? && failures == old(failures) + if r.Closed? then 1 else 0
    {
      r := *;
      attempts, dry := attempts + 1, r.WouldBlock?;
      if r.Record? {
        delivered := delivered + [r.packet];
      } else if r.Closed? {
        failures := failures + 1;
      }
    }

    // One whole record, or an error that ends the daemon.
    method Write(packet: Packet) returns (ok: bool)
      modifies this`written, this`failures
      ensures written == old(written) + if ok then [packet] else []
      ensures failures == old(failures) + if ok then 0 else 1
    {
      ok := *;
      if ok {
        written := written + [packet];
      } else {
        failures := failures + 1;
      }
    }
  }

  class Daemon {
    const transport: Transport
    const usb: Usb
    const vhci: VirtualHci
    var pending: seq<Action>
    ghost var inputs: seq<Input>
    ghost var emitted: seq<Action>
    ghost var executed: seq<Action>

    // Executed actions are in order and are what the two devices have seen.
    ghost predicate Logged()
      reads this`executed, usb`transmitted, vhci`written
    {
      Ordered(executed) && vhci.written == HostLog(executed) && usb.transmitted == UsbLog(executed)
    }

    // Nothing is lost, duplicated or reordered between emission and execution, and the
    // USB alternate is the one of the last executed endpoint change.
    ghost predicate InOrder()
      reads this`executed, this`pending, this`emitted, usb`alt
    {
      && executed + pending == emitted
      && Ordered(emitted)
      && usb.alt == usb.AltFor(LastSco(executed))
      && (usb.alt != 0 <==> LastSco(executed) != 0)
    }

    ghost predicate Ready()
      reads this`executed, this`pending, this`emitted, transport, transport.event, transport.acl, transport.sco, vhci`written, usb, usb.lib, usb.slots, usb.incoming
    {
      && transport.Valid() && usb.Valid()
      && Faithful(transport.View(), emitted)
      && InOrder() && Logged()
    }

    ghost predicate Valid()
      reads this`executed, this`pending, this`emitted, transport, transport.event, transport.acl, transport.sco, vhci`written, usb, usb.lib, usb.slots, usb.incoming
    {
      Ready() && |pending| <= MAX_PENDING
    }

    // The emitted actions are those of the link machine on the inputs, with its state.
    ghost predicate Traced()
      reads this`inputs, this`emitted, transport, transport.event, transport.acl, transport.sco
    {
      TransportSpec.Run(inputs) == Out(transport.View(), Ok(emitted))
    }

    // The inputs are everything the receive queue ever accepted and gave out, in order, and
    // every record read from the host.
    ghost predicate Heard()
      reads this`inputs, vhci`delivered, usb.incoming
    {
      && UsbInputs(inputs) + usb.incoming.queue == usb.incoming.accepted
      && HostInputs(inputs) == vhci.delivered
    }

    constructor (usb: Usb, vhci: VirtualHci)
      requires usb.Valid() && usb.alt == 0 && usb.transmitted == [] && usb.incoming.queue == usb.incoming.accepted
      requires vhci.delivered == [] && vhci.written == []
      ensures Valid() && Traced() && Heard()
      ensures this.usb == usb && this.vhci == vhci && inputs == [] && emitted == executed == [] && fresh(transport)
    {
      transport := new Transport();
      this.usb, this.vhci := usb, vhci;
      pending, inputs, emitted, executed := [], [], [], [];
    }

    // Actions of one input join the queue.
    method Emit(actions: seq<Action>)
      requires transport.Valid() && usb.Valid() && InOrder() && Logged()
      requires Faithful(transport.View(), emitted + actions)
      modifies this`pending, this`emitted
      ensures Ready() && pending == old(pending) + actions && emitted == old(emitted) + actions && executed == old(executed)
    {
      assert (executed + pending) + actions == executed + (pending + actions);
      pending := pending + actions;
      emitted := emitted + actions;
    }

    // One input goes through the link machine; its actions join the queue, or its error
    // stops the loop.
    method Take(input: Input) returns (p: Progress)
      requires Ready() && Traced()
      modifies this`pending, this`emitted, this`inputs, transport, transport.event, transport.acl, transport.sco
      ensures Logged() && inputs == old(inputs) + [input]
      ensures var o := Step(old(transport.View()), input);
              if o.result.Ok? then p.Continue? && Ready() && Traced() && pending == old(pending) + o.result.value
              else p == Stopped(Protocol(o.result.error)) && TransportSpec.Run(inputs).result == Err(o.result.error)
    {
      StepKeeps(transport.View(), emitted, input);
      RunNext(inputs, input);
      inputs := inputs + [input];
      var r := transport.Take(input);
      if r.Err? {
        return Stopped(Protocol(r.error));
      }
      Emit(r.value);
      return Continue;
    }

    // The oldest fragment of the receive queue becomes actions.
    method DrainOne() returns (p: Progress)
      requires Valid() && Traced() && Heard() && usb.incoming.queue != []
      modifies this`pending, this`emitted, this`inputs, transport, transport.event, transport.acl, transport.sco, usb.incoming
      ensures Logged() && Heard() && inputs == old(inputs) + [Fragment(old(usb.incoming.queue)[0])]
      ensures usb.incoming.queue == old(usb.incoming.queue)[1..]
      ensures p.Continue? ==> Valid() && Traced()
      ensures p.Stopped? ==> (p.reason.ActionOverflow? || p.reason.Protocol?) && StoppedFairly(p.reason)
    {
      var item := usb.NextFragment();
      HeardNext(inputs, old(usb.incoming.queue));
      p := Take(Fragment(item));
      if p.Continue? && |pending| > MAX_PENDING {
        p := Stopped(ActionOverflow);
      }
    }

    // Turn everything received from USB into actions.
    method Drain() returns (p: Progress)
      requires Valid() && Traced() && Heard()
      modifies this`pending, this`emitted, this`inputs, transport, transport.event, transport.acl, transport.sco, usb.incoming
      ensures Logged() && Heard()
      ensures p.Continue? ==> Valid() && Traced() && usb.incoming.queue == [] && inputs == old(inputs) + Fragments(old(usb.incoming.queue))
      ensures p.Stopped? ==> StoppedFairly(p.reason)
    {
      if usb.incoming.overflow {
        return Stopped(ReceiveOverflow);
      }
      ghost var queue, n := usb.incoming.queue, 0;
      while usb.incoming.queue != []
        invariant Valid() && Traced() && Heard()
        invariant 0 <= n <= |queue| && usb.incoming.queue == queue[n..]
        invariant inputs == old(inputs) + Fragments(queue[..n])
        decreases |usb.incoming.queue|
      {
        p := DrainOne();
        if p.Stopped? {
          return;
        }
        FragmentsNext(old(inputs), queue, n);
        n := n + 1;
      }
      return Continue;
    }

    // The loop stops for a reason: a protocol error is that of the link machine on the inputs,
    // a queue has overflowed, or the device or the host failed just now.
    twostate predicate StoppedFairly(reason: Stop)
      reads this`inputs, this`pending, usb`failures, usb.incoming, vhci`failures
    {
      match reason
      case ReceiveOverflow => usb.incoming.overflow
      case Protocol(error) => TransportSpec.Run(inputs).result == Err(error)
      case ActionOverflow => |pending| > 256
      case HostIo => vhci.failures > old(vhci.failures)
      case EndpointChange(rc) => rc < 0 && usb.failures > old(usb.failures)
      case Transmit(rc) => rc < 0 && rc != -ENOTCONN && rc != -ENOBUFS && usb.failures > old(usb.failures)
      case Events(rc) => rc < 0 && usb.failures > old(usb.failures)
    }

    // Until then nothing has failed.
    twostate predicate Quiet()
      reads usb`failures, vhci`failures
    {
      usb.failures == old(usb.failures) && vhci.failures == old(vhci.failures)
    }

    // The first pending action was executed.
    twostate predicate Executed()
      reads this`pending, this`executed
    {
      old(pending) != [] && pending == old(pending)[1..] && executed == old(executed) + [old(pending)[0]]
    }

    lemma NextIsAdmissible()
      requires InOrder() && pending != []
      ensures Admissible(executed, pending[0])
    {
      assert emitted[..|executed|] == executed && emitted[|executed|] == pending[0];
      OrderedEverywhere(emitted, |executed|);
    }

    // Execute one action. It is held back only while every transfer is in use.
    method Execute(action: Action) returns (p: Progress, blocked: bool)
      requires Ready() && pending != [] && action == pending[0]
      modifies this`pending, this`executed, vhci`written, vhci`failures, usb, usb.lib, usb.slots, usb.incoming, usb.clock
      ensures Logged() && Grows(old(usb.incoming.View()), usb.incoming.View())
      ensures p.Continue? ==> Ready()
      ensures p.Continue? ==> if blocked then pending == old(pending) && executed == old(executed) && action.Usb? && Exhausted() else Executed()
      ensures p.Stopped? ==> executed == old(executed) && StoppedFairly(p.reason)
      ensures p.Stopped? ==> p.reason.HostIo? || p.reason.EndpointChange? || p.reason.Transmit?
      ensures usb.pumps == old(usb.pumps) && (p.Continue? ==> Quiet())
    {
      NextIsAdmissible();
      GrowsReflexive(usb.incoming.View());
      blocked := false;
      match action {
        case Host(packet) => p := WriteRecord(packet);
        case Sco(mode) => p := ChangeEndpoint(mode);
        case Usb(packet) => p, blocked := Transmit(packet);
      }
    }

    ghost predicate Exhausted()
      reads usb.slots
    {
      Full(usb.slots[..])
    }

    // Before an action is committed: only its own effect is ahead of the log.
    ghost predicate Ahead(action: Action)
      reads this`executed, this`pending, this`emitted, transport, transport.event, transport.acl, transport.sco, vhci`written, usb, usb.lib, usb.slots, usb.incoming
    {
      && transport.Valid() && usb.Valid()
      && Faithful(transport.View(), emitted)
      && executed + pending == emitted && pending != [] && pending[0] == action
      && Ordered(executed) && Admissible(executed, action)
      && vhci.written == HostLog(executed) + (if action.Host? then [action.packet] else [])
      && usb.transmitted == UsbLog(executed) + (if action.Usb? then [action.packet] else [])
      && var mode := if action.Sco? then action.mode else LastSco(executed);
         usb.alt == usb.AltFor(mode) && (usb.alt != 0 <==> mode != 0)
    }

    method Commit(action: Action)
      requires Ahead(action)
      modifies this`pending, this`executed
      ensures Ready() && pending == old(pending)[1..] && executed == old(executed) + [action]
    {
      ghost var done, rest := executed + [action], pending[1..];
      ExtendLogs(executed, action);
      Extend(executed, action);
      assert done + rest == emitted by {
        assert executed + pending == done + rest;
      }
      assert Ordered(done) && vhci.written == HostLog(done) && usb.transmitted == UsbLog(done);
      pending, executed := pending[1..], done;
    }

    method WriteRecord(packet: Packet) returns (p: Progress)
      requires Ready() && pending != [] && pending[0] == Host(packet) && Admissible(executed, Host(packet))
      modifies this`pending, this`executed, vhci`written, vhci`failures
      ensures if p.Continue? then Ready() && Executed() else p.reason.HostIo? && Logged() && executed == old(executed)
      ensures if p.Continue? then Quiet() else StoppedFairly(p.reason)
    {
      var ok := vhci.Write(packet);
      if !ok {
        return Stopped(HostIo);
      }
      Commit(Host(packet));
      return Continue;
    }

    method ChangeEndpoint(mode: Byte) returns (p: Progress)
      requires Ready() && pending != [] && pending[0] == Sco(mode) && Admissible(executed, Sco(mode))
      modifies this`pending, this`executed, usb, usb.lib, usb.slots, usb.incoming, usb.clock
      ensures Grows(old(usb.incoming.View()), usb.incoming.View())
      ensures if p.Continue? then Ready() && Executed() else p.reason.EndpointChange? && Logged() && executed == old(executed)
      ensures usb.pumps == old(usb.pumps) && if p.Continue? then Quiet() else StoppedFairly(p.reason)
    {
      var rc := usb.SetSco(mode);
      if rc < 0 {
        return Stopped(EndpointChange(rc));
      }
      Commit(Sco(mode));
      return Continue;
    }

    // An -ENOBUFS leaves the action where it is, for a later attempt.
    method Transmit(packet: Packet) returns (p: Progress, blocked: bool)
      requires Ready() && pending != [] && pending[0] == Usb(packet) && Admissible(executed, Usb(packet))
      modifies this`pending, this`executed, usb`alt6Phase, usb`alt6Sends, usb`alt6Used, usb`polled, usb`failures, usb`transmitted, usb.lib, usb.slots
      ensures p.Continue? ==> Ready() && if blocked then Exhausted() && pending == old(pending) && executed == old(executed) else Executed()
      ensures p.Stopped? ==> p.reason.Transmit? && StoppedFairly(p.reason) && Logged() && executed == old(executed)
      ensures p.Continue? ==> Quiet()
    {
      assert packet == [packet[0]] + packet[1..];
      var rc, _, _ := usb.Send(packet[0], packet[1..]);
      if rc == -105 {
        return Continue, true;
      }
      if rc < 0 {
        return Stopped(Stop.Transmit(rc)), false;
      }
      Commit(Usb(packet));
      return Continue, false;
    }

    // Execute everything that can be executed now.
    method ExecuteAll() returns (p: Progress, blocked: bool)
      requires Valid()
      modifies this`pending, this`executed, vhci`written, vhci`failures, usb, usb.lib, usb.slots, usb.incoming, usb.clock
      ensures Logged() && old(executed) <= executed && Grows(old(usb.incoming.View()), usb.incoming.View())
      ensures p.Continue? ==> Valid() && if blocked then Exhausted() && pending != [] else pending == []
      ensures p.Stopped? ==> StoppedFairly(p.reason)
      ensures usb.pumps == old(usb.pumps) && (p.Continue? ==> Quiet())
    {
      blocked := false;
      while pending != []
        invariant Valid() && old(executed) <= executed
        invariant Grows(old(usb.incoming.View()), usb.incoming.View()) && Quiet() && usb.pumps == old(usb.pumps)
        decreases |pending|
      {
        ghost var view := usb.incoming.View();
        p, blocked := Execute(pending[0]);
        GrowsTransitive(old(usb.incoming.View()), view, usb.incoming.View());
        if p.Stopped? || blocked {
          return;
        }
      }
      return Continue, false;
    }

    // A packet just read from the host becomes at most two actions, those of the link machine.
    method HostPacket(packet: Packet) returns (p: Progress)
      requires Ready() && Traced()
      requires UsbInputs(inputs) + usb.incoming.queue == usb.incoming.accepted && HostInputs(inputs) + [packet] == vhci.delivered
      modifies this`pending, this`emitted, this`inputs, transport, transport.event, transport.acl, transport.sco
      ensures Logged() && Heard() && inputs == old(inputs) + [FromHost(packet)]
      ensures p.Continue? ==> Ready() && Traced() && |pending| <= |old(pending)| + 2
      ensures p.Stopped? ==> p.reason.Protocol? && StoppedFairly(p.reason)
    {
      HostActions(transport.View(), packet);
      p := Take(FromHost(packet));
      ExtendInputs(old(inputs), FromHost(packet));
    }

    // Read one record from the host.
    method ReadHost() returns (p: Progress, more: bool)
      requires Ready() && Traced() && Heard()
      modifies this`pending, this`emitted, this`inputs, transport, transport.event, transport.acl, transport.sco, vhci`delivered, vhci`attempts, vhci`dry, vhci`failures
      ensures Logged() && Heard() && old(inputs) <= inputs
      ensures p.Continue? ==> Ready() && Traced() && |pending| <= |old(pending)| + 2
      ensures p.Stopped? ==> StoppedFairly(p.reason)
      ensures vhci.attempts == old(vhci.attempts) + 1 && (p.Continue? && !more ==> vhci.dry)
      ensures p.Continue? ==> Quiet()
    {
      var r := vhci.Read();
      match r {
        case Closed => return Stopped(HostIo), false;
        case WouldBlock => return Continue, false;
        case Interrupted => return Continue, true;
        case Record(packet) =>
          p := HostPacket(packet);
          return p, true;
      }
    }

    // The host was read until there was nothing left, or as often as a burst allows.
    ghost predicate HostRead(before: nat)
      reads vhci`attempts, vhci`dry
    {
      vhci.attempts > before && (vhci.dry || vhci.attempts == before + 32)
    }

    // Read until there is nothing left, at most 32 times; every packet becomes actions.
    method QueueHost() returns (p: Progress)
      requires Valid() && Traced() && Heard() && pending == []
      modifies this`pending, this`emitted, this`inputs, transport, transport.event, transport.acl, transport.sco, vhci`delivered, vhci`attempts, vhci`dry, vhci`failures
      ensures Logged() && Heard() && old(inputs) <= inputs
      ensures p.Continue? ==> Valid() && Traced() && |pending| <= 2 * HOST_BURST
      ensures p.Continue? ==> HostRead(old(vhci.attempts))
      ensures p.Stopped? ==> StoppedFairly(p.reason)
      ensures p.Continue? ==> Quiet()
    {
      for i := 0 to HOST_BURST
        invariant Ready() && Traced() && Heard() && old(inputs) <= inputs && |pending| <= 2 * i
        invariant vhci.attempts == old(vhci.attempts) + i && Quiet()
      {
        var more;
        p, more := ReadHost();
        if p.Stopped? {
          return;
        }
        if !more {
          break;
        }
      }
      return Continue;
    }

    // Handle what was received, then execute what can be executed.
    method Work() returns (p: Progress)
      requires Valid() && Traced() && Heard()
      modifies this`pending, this`emitted, this`executed, this`inputs
      modifies transport, transport.event, transport.acl, transport.sco, vhci`written, vhci`failures
      modifies usb, usb.lib, usb.slots, usb.incoming, usb.clock
      ensures Logged() && Heard() && old(executed) <= executed
      ensures p.Continue? ==> Valid() && Traced() && Includes(inputs, old(inputs), old(usb.incoming.queue))
      ensures p.Continue? && pending != [] ==> Exhausted()
      ensures p.Stopped? ==> StoppedFairly(p.reason)
      ensures usb.pumps == old(usb.pumps) && (p.Continue? ==> Quiet())
    {
      p := Drain();
      if p.Stopped? {
        return;
      }
      ghost var view := usb.incoming.View();
      var blocked;
      p, blocked := ExecuteAll();
      HeardGrows(inputs, view, usb.incoming.View());
    }

    // The host is read when nothing is pending.
    method ReadWhenIdle() returns (p: Progress)
      requires Valid() && Traced() && Heard()
      modifies this`pending, this`emitted, this`inputs, transport, transport.event, transport.acl, transport.sco
      modifies vhci`delivered, vhci`attempts, vhci`dry, vhci`failures
      ensures Logged() && Heard() && old(inputs) <= inputs
      ensures p.Continue? ==> Valid() && Traced() && if old(pending) == [] then HostRead(old(vhci.attempts)) else pending == old(pending)
      ensures p.Stopped? ==> StoppedFairly(p.reason)
      ensures p.Continue? ==> Quiet()
    {
      if pending == [] {
        p := QueueHost();
      } else {
        p := Continue;
      }
    }

    // Handle what was received, execute what can be executed, then read the host unless
    // something is still held back.
    method Advance() returns (p: Progress)
      requires Valid() && Traced() && Heard()
      modifies this`pending, this`emitted, this`executed, this`inputs
      modifies transport, transport.event, transport.acl, transport.sco, vhci
      modifies usb, usb.lib, usb.slots, usb.incoming, usb.clock
      ensures Logged() && Heard() && old(executed) <= executed
      ensures p.Continue? ==> Valid() && Traced() && Includes(inputs, old(inputs), old(usb.incoming.queue))
      ensures p.Continue? ==> HostRead(old(vhci.attempts)) || pending != []
      ensures p.Stopped? ==> StoppedFairly(p.reason)
      ensures usb.pumps == old(usb.pumps) && (p.Continue? ==> Quiet())
    {
      p := Work();
      if p.Continue? {
        ghost var heard := inputs;
        p := ReadWhenIdle();
        IncludesStill(inputs, heard, old(inputs), old(usb.incoming.queue));
      }
    }

    // One turn of the loop.
    method Iterate() returns (p: Progress)
      requires Valid() && Traced() && Heard()
      modifies this`pending, this`emitted, this`executed, this`inputs
      modifies transport, transport.event, transport.acl, transport.sco, vhci
      modifies usb, usb.lib, usb.slots, usb.incoming, usb.clock
      ensures Logged() && Heard() && old(executed) <= executed
      ensures p.Continue? ==> Valid() && Traced() && Includes(inputs, old(inputs), old(usb.incoming.queue))
      ensures p.Continue? ==> usb.polled && (HostRead(old(vhci.attempts)) || pending != [])
      ensures p.Stopped? ==> StoppedFairly(p.reason)
      ensures p.Continue? ==> Quiet() && usb.pumps == old(usb.pumps) + 1
    {
      p := Advance();
      if p.Continue? {
        p := PumpUsb();
      }
    }

    // Let the USB owner handle completions.
    method PumpUsb() returns (p: Progress)
      requires Valid() && Traced() && Heard()
      modifies usb`polled, usb`pumps, usb`failures, usb`fatal, usb`isoRxErrors, usb`isoTxErrors, usb.lib, usb.slots, usb.incoming
      ensures Valid() && Traced() && Heard() && usb.polled
      ensures p.Stopped? ==> p.reason.Events? && StoppedFairly(p.reason)
      ensures usb.pumps == old(usb.pumps) + 1 && (p.Continue? ==> Quiet())
    {
      ghost var view := usb.incoming.View();
      var rc := usb.PumpEvents();
      HeardGrows(inputs, view, usb.incoming.View());
      return if rc < 0 then Stopped(Events(rc)) else Continue;
    }

    // Any number of turns. The actions are those of the link machine on everything that was
    // received and read; executed and pending ones are all of them, in order; the devices
    // have seen exactly the executed ones; synchronous data never meets alternate 0.
    method Run(turns: nat) returns (p: Progress)
      requires Valid() && Traced() && Heard()
      modifies this`pending, this`emitted, this`executed, this`inputs
      modifies transport, transport.event, transport.acl, transport.sco, vhci
      modifies usb, usb.lib, usb.slots, usb.incoming, usb.clock
      ensures Logged() && Heard() && old(executed) <= executed
      ensures p.Continue? ==> Valid() && Traced() && |pending| <= 256
      ensures p.Continue? && turns > 0 ==> Includes(inputs, old(inputs), old(usb.incoming.queue))
      ensures p.Stopped? ==> StoppedFairly(p.reason)
      ensures forall i :: 0 <= i < |executed| ==> Admissible(executed[..i], executed[i])
      ensures p.Continue? ==> Quiet() && usb.pumps == old(usb.pumps) + turns
    {
      p := Continue;
      var i := 0;
      while i < turns && p.Continue?
        invariant Logged() && Heard() && old(executed) <= executed
        invariant p.Continue? ==> Valid() && Traced() && Quiet() && usb.pumps == old(usb.pumps) + i && i <= turns
        invariant if i == 0 then p.Continue? && inputs == old(inputs) && usb.incoming.queue == old(usb.incoming.queue)
                  else p.Continue? ==> Includes(inputs, old(inputs), old(usb.incoming.queue))
        invariant p.Stopped? ==> StoppedFairly(p.reason)
      {
        ghost var heard := inputs;
        p := Iterate();
        if p.Continue? && i > 0 {
          IncludesStill(inputs, heard, old(inputs), old(usb.incoming.queue));
        }
        i := i + 1;
      }
      forall i | 0 <= i < |executed| ensures Admissible(executed[..i], executed[i]) {
        OrderedEverywhere(executed, i);
      }
    }
  }

  lemma HeardGrows(inputs: seq<Input>, before: Backlog, after: Backlog)
    requires UsbInputs(inputs) + before.queue == before.accepted && Grows(before, after)
    ensures UsbInputs(inputs) + after.queue == after.accepted
  {
    assert after.queue == before.queue + after.queue[|before.queue|..];
  }
}
