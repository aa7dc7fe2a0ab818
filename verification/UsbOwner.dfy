// Ownership of asynchronous USB transfers (floss-usb/src/usb.rs). libusb is a separate
// object that may refuse any request and complete any submitted transfer, in any order,
// with any status.
module Transfers {
  import opened Wrappers
  import opened Hci

  datatype Slot = Empty | Busy(id: nat, kind: Byte, receive: bool)

  ghost predicate Distinct(s: seq<Slot>) {
    forall i, j :: 0 <= i < j < |s| && s[i].Busy? && s[j].Busy? ==> s[i].id != s[j].id
  }

  ghost function Ids(s: seq<Slot>): set<nat> {
    set i | 0 <= i < |s| && s[i].Busy? :: s[i].id
  }

  function Weight(slot: Slot, kind: Byte): nat {
    if slot.Busy? && slot.receive && slot.kind == kind then 1 else 0
  }

  // Receives of one kind that occupy a slot.
  function Receivers(s: seq<Slot>, kind: Byte): nat {
    if s == [] then 0 else Receivers(s[..|s| - 1], kind) + Weight(s[|s| - 1], kind)
  }

  predicate Full(s: seq<Slot>) {
    forall k :: 0 <= k < |s| ==> s[k].Busy?
  }

  // Two slots are free.
  predicate Roomy(s: seq<Slot>) {
    exists i, j :: 0 <= i < j < |s| && s[i].Empty? && s[j].Empty?
  }

  // One slot that was free changed.
  predicate OneMore(before: seq<Slot>, after: seq<Slot>, i: nat) {
    |before| == |after| && i < |before| && before[i].Empty? && after == before[i := after[i]]
  }

  lemma ThreeAreFree(a: seq<Slot>, b: seq<Slot>, c: seq<Slot>, i: nat, j: nat)
    requires |a| >= 3 && (forall k :: 0 <= k < |a| ==> a[k].Empty?)
    requires OneMore(a, b, i) && (c == b || OneMore(b, c, j))
    ensures !Full(b) && !Full(c)
  {
    var k := if i != 0 && j != 0 then 0 else if i != 1 && j != 1 then 1 else 2;
    assert b[k].Empty? && c[k].Empty?;
  }

  lemma RoomyIsNotFull(s: seq<Slot>)
    requires Roomy(s)
    ensures !Full(s)
  {
  }

  lemma RoomForOneMore(before: seq<Slot>, after: seq<Slot>, i: nat)
    requires Roomy(before) && OneMore(before, after, i)
    ensures !Full(before) && !Full(after)
  {
    var j, k :| 0 <= j < k < |before| && before[j].Empty? && before[k].Empty?;
    assert after[if i == j then k else j].Empty?;
  }

  predicate NoIso(s: seq<Slot>) {
    forall i :: 0 <= i < |s| && s[i].Busy? ==> s[i].kind != 3
  }

  lemma {:induction false} ReceiversUpdate(s: seq<Slot>, i: nat, slot: Slot, kind: Byte)
    requires i < |s|
    ensures Receivers(s[i := slot], kind) == Receivers(s, kind) - Weight(s[i], kind) + Weight(slot, kind)
    decreases |s|
  {
    var n := |s| - 1;
    if i == n {
      assert s[i := slot][..n] == s[..n];
    } else {
      assert s[i := slot][..n] == s[..n][i := slot];
      ReceiversUpdate(s[..n], i, slot, kind);
    }
  }

  lemma IdsAdd(s: seq<Slot>, i: nat, slot: Slot)
    requires i < |s| && s[i].Empty? && slot.Busy? && Distinct(s) && slot.id !in Ids(s)
    ensures Ids(s[i := slot]) == Ids(s) + {slot.id} && Distinct(s[i := slot])
  {
    var t := s[i := slot];
    forall id | id in Ids(s) + {slot.id} ensures id in Ids(t) {
      if id == slot.id {
        assert t[i].Busy? && t[i].id == id;
      } else {
        var j :| 0 <= j < |s| && s[j].Busy? && s[j].id == id;
        assert t[j].id == id;
      }
    }
  }

  lemma IdsRemove(s: seq<Slot>, i: nat)
    requires i < |s| && s[i].Busy? && Distinct(s)
    ensures Ids(s[i := Empty]) == Ids(s) - {s[i].id} && Distinct(s[i := Empty]) && s[i].id in Ids(s)
  {
    var t := s[i := Empty];
    forall id | id in Ids(s) - {s[i].id} ensures id in Ids(t) {
      var j :| 0 <= j < |s| && s[j].Busy? && s[j].id == id;
      assert t[j].id == id;
    }
    forall id | id in Ids(t) ensures id in Ids(s) - {s[i].id} {
      var j :| 0 <= j < |t| && t[j].Busy? && t[j].id == id;
      assert s[j].id == id;
    }
  }

  lemma IdsBelow(s: seq<Slot>, ids: set<nat>, next: nat)
    requires Ids(s) == ids && forall id :: id in ids ==> id < next
    ensures forall i :: 0 <= i < |s| && s[i].Busy? ==> s[i].id < next
  {
    forall i | 0 <= i < |s| && s[i].Busy? ensures s[i].id < next {
      assert s[i].id in Ids(s);
    }
  }

  lemma {:induction false} NoIsoHasNoReceivers(s: seq<Slot>)
    requires NoIso(s)
    ensures Receivers(s, 3) == 0
    decreases |s|
  {
    if s != [] {
      NoIsoHasNoReceivers(s[..|s| - 1]);
    }
  }

  lemma {:induction false} EmptyHasNoReceivers(s: seq<Slot>, kind: Byte)
    requires forall i :: 0 <= i < |s| ==> s[i].Empty?
    ensures Receivers(s, kind) == 0
    decreases |s|
  {
    if s != [] {
      EmptyHasNoReceivers(s[..|s| - 1], kind);
    }
  }

  // ------------------------------------------------------------------ libusb

  // Completion statuses; any other value is a device failure.
  const COMPLETED := 0
  const ERROR := 1
  const TIMED_OUT := 2
  const CANCELLED := 3

  datatype IsoPacket = IsoPacket(status: int, bytes: Packet, short: bool)

  // What libusb reports with a finished transfer. `short` means that fewer bytes were sent
  // than asked for; `panics` that the receiver callback panicked on the data.
  datatype Completion = Completion(status: int, bytes: Packet, packets: seq<IsoPacket>, short: bool, panics: bool)

  datatype Done = Done(slot: Slot, completion: Completion)

  // What the library has allocated, and which transfers it currently owns.
  class Libusb {
    var transfers: set<nat>
    var buffers: set<nat>
    var inFlight: set<nat>
    var next: nat
    ghost var done: seq<Done>  // every completion so far
    ghost var refusals: nat    // how often a request was refused

    ghost predicate Valid()
      reads this
    {
      inFlight <= transfers && buffers <= transfers && forall id :: id in transfers ==> id < next
    }

    constructor ()
      ensures Valid() && transfers == {} && buffers == {} && inFlight == {}
    {
      transfers, buffers, inFlight, next := {}, {}, {}, 0;
      done, refusals := [], 0;
    }

    // Identities are never reused, so "freed twice" is freeing one that is not allocated.
    method Alloc() returns (r: Option<nat>)
      requires Valid()
      modifies this
      ensures Valid() && buffers == old(buffers) && inFlight == old(inFlight) && next >= old(next) && unchanged(`done)
      ensures refusals == old(refusals) + if r.None? then 1 else 0
      ensures r.None? ==> transfers == old(transfers)
      ensures r.Some? ==> r.value !in old(transfers) && r.value >= old(next) && transfers == old(transfers) + {r.value}
    {
      var refused: bool := *;
      if refused {
        refusals := refusals + 1;
        return None;
      }
      r := Some(next);
      transfers := transfers + {next};
      next := next + 1;
    }

    method AllocBuffer(id: nat) returns (ok: bool)
      requires Valid() && id in transfers && id !in buffers
      modifies this
      ensures Valid() && transfers == old(transfers) && inFlight == old(inFlight) && next == old(next) && unchanged(`done)
      ensures buffers == if ok then old(buffers) + {id} else old(buffers)
      ensures refusals == old(refusals) + if ok then 0 else 1
    {
      ok := *;
      if ok {
        buffers := buffers + {id};
      } else {
        refusals := refusals + 1;
      }
    }

    // Select an alternate setting, or read the descriptors: the device may refuse.
    method Ask() returns (ok: bool)
      modifies this`refusals
      ensures refusals == old(refusals) + if ok then 0 else 1
    {
      ok := *;
      if !ok {
        refusals := refusals + 1;
      }
    }

    // A transfer the library owns must not be submitted or freed. The error codes of the
    // library are -1 to -12 and -99.
    method Submit(id: nat) returns (rc: int)
      requires Valid() && id in transfers && id in buffers && id !in inFlight
      modifies this
      ensures Valid() && transfers == old(transfers) && buffers == old(buffers) && next == old(next) && unchanged(`done)
      ensures -12 <= rc <= 0 || rc == -99
      ensures inFlight == if rc == 0 then old(inFlight) + {id} else old(inFlight)
      ensures refusals == old(refusals) + if rc == 0 then 0 else 1
    {
      var refused: bool := *;
      if refused {
        var code: int :| 1 <= code <= 13;
        rc := if code == 13 then -99 else -code;
        refusals := refusals + 1;
        return;
      }
      inFlight := inFlight + {id};
      rc := 0;
    }

    method FreeBuffer(id: nat)
      requires Valid() && id in buffers && id !in inFlight
      modifies this
      ensures Valid() && transfers == old(transfers) && inFlight == old(inFlight) && next == old(next) && unchanged(`done, `refusals)
      ensures buffers == old(buffers) - {id}
    {
      buffers := buffers - {id};
    }

    method FreeTransfer(id: nat)
      requires Valid() && id in transfers && id !in buffers && id !in inFlight
      modifies this
      ensures Valid() && transfers == old(transfers) - {id} && buffers == old(buffers) && inFlight == old(inFlight)
      ensures next == old(next) && unchanged(`done, `refusals)
    {
      transfers := transfers - {id};
    }

    // The library hands a transfer back just before it calls its completion callback.
    method Finish(slot: Slot, c: Completion)
      requires Valid() && slot.Busy? && slot.id in inFlight
      modifies this
      ensures Valid() && transfers == old(transfers) && buffers == old(buffers) && next == old(next) && unchanged(`refusals)
      ensures inFlight == old(inFlight) - {slot.id} && done == old(done) + [Done(slot, c)]
    {
      inFlight := inFlight - {slot.id};
      done := done + [Done(slot, c)];
    }
  }

  // A monotonic millisecond clock that may fail, may repeat a reading, but not for ever.
  class Clock {
    var now: int
    var patience: nat // repeated readings still possible
    ghost var failures: nat

    constructor () {
    }

    method Read() returns (r: Option<int>)
      modifies this
      ensures now >= old(now)
      ensures now > old(now) || patience < old(patience)
      ensures r.Some? ==> r.value == now
      ensures failures == old(failures) + if r.None? then 1 else 0
    {
      var step: nat, fails: bool := *, *;
      if step == 0 && patience > 0 {
        patience := patience - 1;
      } else {
        now := now + 1 + step;
        patience := *;
      }
      if fails {
        failures := failures + 1;
        return None;
      }
      return Some(now);
    }
  }

  // ------------------------------------------------------------------ the receive queue

  // `accepted` is everything that was ever queued.
  datatype Backlog = Backlog(queue: seq<(Byte, Packet)>, bytes: nat, overflow: bool, accepted: seq<(Byte, Packet)>)

  const QUEUE_PACKETS := 128
  const QUEUE_BYTES := 262144

  function Accept(b: Backlog, kind: Byte, buffer: Packet): Backlog {
    if |buffer| > 4096 || |b.queue| >= QUEUE_PACKETS || b.bytes + |buffer| > QUEUE_BYTES then b.(overflow := true)
    else if buffer == [] then b
    else b.(queue := b.queue + [(kind, buffer)], bytes := b.bytes + |buffer|, accepted := b.accepted + [(kind, buffer)])
  }

  function AcceptAll(b: Backlog, kind: Byte, pieces: seq<Packet>): Backlog {
    if pieces == [] then b
    else Accept(AcceptAll(b, kind, pieces[..|pieces| - 1]), kind, pieces[|pieces| - 1])
  }

  function Total(q: seq<(Byte, Packet)>): nat {
    if q == [] then 0 else Total(q[..|q| - 1]) + |q[|q| - 1].1|
  }

  predicate Bounded(b: Backlog) {
    && |b.queue| <= QUEUE_PACKETS
    && b.bytes == Total(b.queue) <= QUEUE_BYTES
    && forall i :: 0 <= i < |b.queue| ==> 0 < |b.queue[i].1| <= 4096
  }

  // Between two looks at the queue entries are only added behind the others.
  predicate Grows(before: Backlog, after: Backlog) {
    && (before.overflow ==> after.overflow)
    && before.queue <= after.queue
    && after.accepted == before.accepted + after.queue[|before.queue|..]
  }

  lemma GrowsReflexive(b: Backlog)
    ensures Grows(b, b)
  {
  }

  lemma GrowsTransitive(a: Backlog, b: Backlog, c: Backlog)
    requires Grows(a, b) && Grows(b, c)
    ensures Grows(a, c)
  {
    assert c.queue[|a.queue|..] == b.queue[|a.queue|..] + c.queue[|b.queue|..];
  }

  lemma AcceptGrows(b: Backlog, kind: Byte, buffer: Packet)
    ensures Grows(b, Accept(b, kind, buffer))
  {
  }

  lemma {:induction false} AcceptAllGrows(b: Backlog, kind: Byte, pieces: seq<Packet>)
    ensures Grows(b, AcceptAll(b, kind, pieces))
    decreases |pieces|
  {
    if pieces != [] {
      var init := AcceptAll(b, kind, pieces[..|pieces| - 1]);
      AcceptAllGrows(b, kind, pieces[..|pieces| - 1]);
      AcceptGrows(init, kind, pieces[|pieces| - 1]);
      GrowsTransitive(b, init, AcceptAll(b, kind, pieces));
    }
  }

  lemma AcceptKeepsBounds(b: Backlog, kind: Byte, buffer: Packet)
    requires Bounded(b)
    ensures Bounded(Accept(b, kind, buffer))
    ensures b.overflow ==> Accept(b, kind, buffer).overflow
    ensures !Accept(b, kind, buffer).overflow && buffer != [] ==> Accept(b, kind, buffer).queue == b.queue + [(kind, buffer)]
  {
    var q := b.queue + [(kind, buffer)];
    assert q[..|q| - 1] == b.queue;
  }

  // A buffer is queued exactly when it is not empty and neither the buffer, the number of
  // queued ones nor their bytes are too many; too many of anything is an overflow.
  lemma AcceptedExactly(b: Backlog, kind: Byte, buffer: Packet)
    ensures var room := |buffer| <= 4096 && |b.queue| < 128 && b.bytes + |buffer| <= 262144;
            var after := Accept(b, kind, buffer);
            && after.overflow == (b.overflow || !room)
            && after.queue == b.queue + (if room && buffer != [] then [(kind, buffer)] else [])
            && after.accepted == b.accepted + (if room && buffer != [] then [(kind, buffer)] else [])
            && after.bytes == b.bytes + if room then |buffer| else 0
  {
  }

  // Unless it overflowed, a burst is queued completely and in order.
  lemma {:induction false} AcceptAllKeepsOrder(b: Backlog, kind: Byte, pieces: seq<Packet>)
    requires Bounded(b) && forall i :: 0 <= i < |pieces| ==> pieces[i] != []
    ensures var after := AcceptAll(b, kind, pieces);
            && Bounded(after)
            && (b.overflow ==> after.overflow)
            && (!after.overflow ==> after.queue == b.queue + seq(|pieces|, i requires 0 <= i < |pieces| => (kind, pieces[i])))
    decreases |pieces|
  {
    if pieces == [] {
      assert AcceptAll(b, kind, pieces) == b;
    } else {
      var init := pieces[..|pieces| - 1];
      AcceptAllKeepsOrder(b, kind, init);
      AcceptKeepsBounds(AcceptAll(b, kind, init), kind, pieces[|pieces| - 1]);
    }
  }

  // Taking the oldest entry keeps the byte count exact.
  lemma {:induction false} TotalHead(q: seq<(Byte, Packet)>)
    requires q != []
    ensures Total(q) == |q[0].1| + Total(q[1..])
    decreases |q|
  {
    if |q| > 1 {
      var init := q[..|q| - 1];
      TotalHead(init);
      assert init[1..] == q[1..][..|q| - 2];
    }
  }

  class Incoming {
    var queue: seq<(Byte, Packet)>
    var bytes: nat
    var overflow: bool
    ghost var accepted: seq<(Byte, Packet)>

    ghost function View(): Backlog
      reads this
    {
      Backlog(queue, bytes, overflow, accepted)
    }

    ghost predicate Valid()
      reads this
    {
      Bounded(View())
    }

    constructor ()
      ensures Valid() && View() == Backlog([], 0, false, [])
    {
      queue, bytes, overflow, accepted := [], 0, false, [];
    }

    method Receive(kind: Byte, buffer: Packet)
      requires Valid()
      modifies this
      ensures Valid() && View() == Accept(old(View()), kind, buffer)
    {
      AcceptKeepsBounds(View(), kind, buffer);
      if |buffer| > 4096 || |queue| >= QUEUE_PACKETS || bytes + |buffer| > QUEUE_BYTES {
        overflow := true;
        return;
      }
      if buffer == [] {
        return;
      }
      bytes := bytes + |buffer|;
      queue := queue + [(kind, buffer)];
      accepted := accepted + [(kind, buffer)];
    }

    method Pop() returns (item: (Byte, Packet))
      requires Valid() && queue != []
      modifies this
      ensures Valid()
      ensures item == old(queue)[0] && queue == old(queue)[1..] && overflow == old(overflow) && accepted == old(accepted)
    {
      TotalHead(queue);
      item := queue[0];
      queue := queue[1..];
      bytes := bytes - |item.1|;
    }
  }
}

module UsbOwner {
  import opened Arithmetic
  import opened Wrappers
  import opened Hci
  import opened Endpoints
  import opened Transfers

  const TRANSFERS := 72
  const EIO := 5
  const ENOMEM := 12
  const EINVAL := 22
  const ENOBUFS := 105
  const ENOTCONN := 107
  const ETIMEDOUT := 110
  const ECANCELED := 125
  const INTERRUPTED := -10

  // Non-empty data of the isochronous packets that arrived intact, in order.
  function Intact(packets: seq<IsoPacket>): seq<Packet> {
    if packets == [] then []
    else
      var p := packets[|packets| - 1];
      Intact(packets[..|packets| - 1]) + if p.status == COMPLETED && p.bytes != [] then [p.bytes] else []
  }

  // Packets of an isochronous transfer that did not arrive, or were not sent completely.
  function Damaged(packets: seq<IsoPacket>, receive: bool): nat {
    if packets == [] then 0
    else
      var p := packets[|packets| - 1];
      Damaged(packets[..|packets| - 1], receive) + if p.status != COMPLETED || (!receive && p.short) then 1 else 0
  }

  lemma NextPacket(b: Backlog, packets: seq<IsoPacket>, k: nat)
    requires k < |packets|
    ensures var p, sofar := packets[k], AcceptAll(b, 3, Intact(packets[..k]));
            && AcceptAll(b, 3, Intact(packets[..k + 1])) ==
               (if p.status == COMPLETED && p.bytes != [] then Accept(sofar, 3, p.bytes) else sofar)
            && Damaged(packets[..k + 1], true) == Damaged(packets[..k], true) + if p.status != COMPLETED then 1 else 0
  {
    var next, p, sofar := packets[..k + 1], packets[k], Intact(packets[..k]);
    assert next[..k] == packets[..k];
    if p.status == COMPLETED && p.bytes != [] {
      assert (sofar + [p.bytes])[..|sofar|] == sofar;
    } else {
      assert sofar + [] == sofar;
    }
  }

  // How a completion counts in the statistics of its direction.
  function Losses(kind: Byte, receive: bool, c: Completion): nat {
    if kind != 3 then 0
    else if c.status == ERROR || c.status == TIMED_OUT then 1
    else if c.status == COMPLETED then Damaged(c.packets, receive)
    else 0
  }

  // Completions that are no failure: intact ones, lost isochronous ones, and cancelled ones
  // while the transfer is being stopped.
  predicate Harmless(slot: Slot, c: Completion, stop: bool)
    requires slot.Busy?
  {
    || (c.status == COMPLETED && (stop || (if slot.receive then !c.panics else slot.kind == 3 || !c.short)))
    || (slot.kind == 3 && (c.status == ERROR || c.status == TIMED_OUT))
    || (c.status == CANCELLED && stop)
  }

  // The failure code after a completion.
  function FailureCode(slot: Slot, c: Completion, stop: bool, before: int): int
    requires slot.Busy?
  {
    if Harmless(slot, c, stop) then before else if c.status == CANCELLED then -ECANCELED else -EIO
  }

  // Of libusb's statuses 0 is a completion, 1 an error, 2 a time-out and 3 a cancellation; of
  // the error numbers 5 is EIO and 125 ECANCELED.
  lemma CompletionsAreJudged(slot: Slot, c: Completion, stop: bool, before: int)
    requires slot.Busy?
    ensures var code := FailureCode(slot, c, stop, before);
            && (c.status == 0 && stop ==> code == before)
            && (c.status == 0 && !stop && slot.receive ==> code == if c.panics then -5 else before)
            && (c.status == 0 && !stop && !slot.receive ==> code == if slot.kind != 3 && c.short then -5 else before)
            && (c.status in {1, 2} ==> code == if slot.kind == 3 then before else -5)
            && (c.status == 3 ==> code == if stop then before else -125)
            && (c.status !in {0, 1, 2, 3} ==> code == -5)
  {
  }

  lemma LossesAreCounted(kind: Byte, receive: bool, c: Completion)
    ensures Losses(kind, receive, c) ==
            if kind != 3 then 0 else if c.status == 0 then Damaged(c.packets, receive) else if c.status in {1, 2} then 1 else 0
    ensures Damaged([], receive) == 0
  {
  }

  // Packets are judged one by one: those with another status than 0 are damaged, and outgoing
  // ones that are short; the data of the others is intact.
  lemma PacketsAreJudged(packets: seq<IsoPacket>, p: IsoPacket)
    ensures Damaged(packets + [p], true) == Damaged(packets, true) + if p.status != 0 then 1 else 0
    ensures Damaged(packets + [p], false) == Damaged(packets, false) + if p.status != 0 || p.short then 1 else 0
    ensures Intact(packets + [p]) == Intact(packets) + if p.status == 0 && p.bytes != [] then [p.bytes] else []
    ensures Intact([]) == []
  {
    assert (packets + [p])[..|packets|] == packets;
  }

  // What is handed over: the intact packets of an isochronous transfer, or all its bytes.
  lemma PiecesAreData(kind: Byte, c: Completion)
    ensures kind == 3 ==> Pieces(kind, c) == Intact(c.packets)
    ensures kind != 3 && c.bytes != [] ==> Pieces(kind, c) == [c.bytes]
    ensures kind != 3 && c.bytes == [] ==> Pieces(kind, c) == []
  {
  }

  // Slots that changed hold transfers with new identities.
  predicate Renewed(before: seq<Slot>, after: seq<Slot>, next: nat) {
    |before| == |after| && forall i :: 0 <= i < |after| ==> after[i] == before[i] || (after[i].Busy? && after[i].id >= next)
  }

  // No isochronous transfer of before is still there.
  ghost predicate Returned(before: seq<Slot>, after: seq<Slot>) {
    forall i, j :: 0 <= i < |before| && 0 <= j < |after| && before[i].Busy? && before[i].kind == 3 && after[j].Busy? ==>
                     before[i].id != after[j].id
  }

  // All completions since the first n were harmless.
  ghost predicate Clean(done: seq<Done>, n: nat, stopping: bool, stoppingSco: bool) {
    forall k :: n <= k < |done| ==> done[k].slot.Busy? && Harmless(done[k].slot, done[k].completion, stopping || (done[k].slot.kind == 3 && stoppingSco))
  }

  function Pieces(kind: Byte, c: Completion): seq<Packet> {
    if kind == 3 then Intact(c.packets) else if c.bytes != [] then [c.bytes] else []
  }

  // ------------------------------------------------------------------ isochronous cadence

  // Cut `len` bytes into endpoint-sized pieces.
  predicate Segmented(len: nat, size: nat, lengths: seq<nat>) {
    && size > 0
    && |lengths| == Ceiling(len, size)
    && (forall i :: 0 <= i < |lengths| ==> 0 < lengths[i] <= size)
    && (forall i :: 0 <= i < |lengths| - 1 ==> lengths[i] == size)
    && Sum(lengths) == len
  }

  function Sum(s: seq<nat>): nat {
    if s == [] then 0 else Sum(s[..|s| - 1]) + s[|s| - 1]
  }

  function Ceiling(len: nat, size: nat): nat
    requires size > 0
  {
    (len + size - 1) / size
  }

  lemma CeilingStep(len: nat, size: nat)
    requires len > 0 && size > 0
    ensures Ceiling(len, size) == 1 + if len > size then Ceiling(len - size, size) else 0
    ensures Ceiling(0, size) == 0
  {
    if len > size {
      assert len + size - 1 == (len - 1) + size;
      DivideStep(len - 1, size);
    } else {
      DivideStep(len - 1, size);
    }
  }

  lemma DivideStep(n: nat, size: nat)
    requires size > 0
    ensures (n + size) / size == n / size + 1
    ensures n < size ==> n / size == 0
  {
    var q, p := n / size, (n + size) / size;
    assert size * (p - q - 1) == n % size - (n + size) % size;
    SmallMultiple(size, p - q - 1);
    if n < size {
      assert size * q == n - n % size;
      SmallMultiple(size, q);
    }
  }

  method Segments(len: nat, size: nat) returns (lengths: seq<nat>)
    requires len > 0 && size > 0
    ensures Segmented(len, size, lengths)
  {
    lengths := [];
    var remain: nat, packets, i := len, Ceiling(len, size), 0;
    while i < packets
      invariant 0 <= i <= packets && |lengths| == i
      invariant Sum(lengths) + remain == len
      invariant packets - i == Ceiling(remain, size) && (remain == 0 ==> i == packets)
      invariant forall j :: 0 <= j < i ==> 0 < lengths[j] <= size
      invariant forall j :: 0 <= j < i && (remain > 0 || j < i - 1) ==> lengths[j] == size
    {
      CeilingStep(if remain == 0 then 1 else remain, size);
      var n := if remain < size then remain else size;
      assert (lengths + [n])[..i] == lengths;
      lengths := lengths + [n];
      remain := remain - n;
      i := i + 1;
    }
    CeilingStep(if remain == 0 then 1 else remain, size);
  }

  // On alternate 6 a packet takes 7 or 8 frames alternately.
  function Alt6Frames(phase: bool): nat { if phase then 8 else 7 }

  function FramesUsed(phase: bool, sends: nat): nat
    decreases sends
  {
    if sends == 0 then 0 else Alt6Frames(phase) + FramesUsed(!phase, sends - 1)
  }

  // Fifteen frames every two sends; half a frame is owed after an odd number of them.
  predicate Paced(phase: bool, sends: nat, used: nat) {
    2 * used + (if phase then 1 else 0) == 15 * sends
  }

  lemma PacedStep(phase: bool, sends: nat, used: nat)
    requires Paced(phase, sends, used)
    ensures Paced(!phase, sends + 1, used + Alt6Frames(phase))
  {
  }

  // Wherever it starts, a run of n sends uses 7.5 frames each, up to half a frame.
  lemma {:induction false} FramesAverage(phase: bool, sends: nat)
    ensures FramesUsed(phase, sends) == if phase then (15 * sends + 1) / 2 else 15 * sends / 2
    decreases sends
  {
    if sends > 0 {
      FramesAverage(!phase, sends - 1);
    }
  }

  function Lengths(kind: Byte, alt: nat, size: nat, phase: bool, len: nat, lengths: seq<nat>): bool {
    if kind != 3 then lengths == []
    else if alt == 6 then
      lengths == seq(Alt6Frames(phase) - 1, _ => 0) + [len]
    else Segmented(len, size, lengths)
  }

  // Bytes handed to the device: a class request carries an 8-byte setup packet.
  function Outgoing(kind: Byte, data: Packet): Packet
    requires |data| <= 4096
  {
    if kind == 1 then [0x20, 0, 0, 0, 0, 0, |data| % 256, |data| / 256] + data else data
  }

  // What the device gets: for a command a request to the default endpoint, of type 0x20 and
  // with the length in bytes 6 and 7, followed by the command; otherwise the data.
  predicate Delivers(kind: Byte, data: Packet, buffer: Packet) {
    if kind == 1 then
      && |buffer| == 8 + |data| && buffer[0] == 0x20
      && (forall k :: 1 <= k < 6 ==> buffer[k] == 0)
      && (buffer[6] as int) + 256 * (buffer[7] as int) == |data|
      && buffer[8..] == data
    else buffer == data
  }

  lemma OutgoingDelivers(kind: Byte, data: Packet)
    requires |data| <= 4096
    ensures Delivers(kind, data, Outgoing(kind, data))
  {
  }

  // The lengths of the isochronous packets: empty ones before the data on alternate 6, and
  // otherwise full ones with the rest at the end.
  predicate Spread(kind: Byte, alt: nat, size: nat, phase: bool, len: nat, lengths: seq<nat>) {
    if kind != 3 then lengths == []
    else
      var n := |lengths| - 1;
      && n >= 0
      && if alt == 6 then
           n == (if phase then 7 else 6) && lengths[n] == len && forall i :: 0 <= i < n ==> lengths[i] == 0
         else
           0 < lengths[n] <= size && n * size + lengths[n] == len && forall i :: 0 <= i < n ==> lengths[i] == size
  }

  lemma LengthsSpread(kind: Byte, alt: nat, size: nat, phase: bool, len: nat, lengths: seq<nat>)
    requires Lengths(kind, alt, size, phase, len, lengths) && len > 0
    ensures Spread(kind, alt, size, phase, len, lengths)
  {
    if kind == 3 && alt != 6 {
      CeilingStep(len, size);
      FullSum(lengths[..|lengths| - 1], size);
    }
  }

  lemma {:induction false} FullSum(s: seq<nat>, size: nat)
    requires forall i :: 0 <= i < |s| ==> s[i] == size
    ensures Sum(s) == |s| * size
    decreases |s|
  {
    if s != [] {
      FullSum(s[..|s| - 1], size);
      Distributes(|s| - 1, size);
    }
  }

  lemma Distributes(n: nat, size: nat)
    ensures n * size + size == (n + 1) * size
  {
  }

  ghost predicate Held(s: seq<Slot>, transfers: set<nat>, buffers: set<nat>, inFlight: set<nat>, waiting: set<nat>) {
    && Distinct(s)
    && transfers == buffers == Ids(s)
    && waiting <= transfers
    && inFlight == transfers - waiting
  }

  // Both alternates that a mode can ask for can be discovered, if there are any.
  lemma TargetsAreDiscoverable(alts: seq<Alternate>)
    requires Discoverable(alts, 2)
    ensures WideBand(alts).0 != 0 ==> Discoverable(alts, WideBand(alts).0)
  {
    if WideBand(alts).0 == 6 {
      var i :| 0 <= i < |alts| && Usable(alts[i]) && alts[i].setting == 6 && SizeOf(alts[i]) >= 63;
      assert Supports(alts, 6, 1);
    }
  }

  // What discovery guarantees about the current endpoints, for whichever alternate.
  ghost predicate Offers(alts: seq<Alternate>, e: Selection) {
    e.isoSize > 0 && e.wbsAlt == WideBand(alts).0 && e.wbsSize == WideBand(alts).1
  }

  lemma DiscoveryOffers(alts: seq<Alternate>, setting: nat, e: Selection)
    requires Meets(alts, setting, e, true)
    ensures Offers(alts, e) && (setting == 6 && UniqueSettings(alts) && e.wbsAlt == 6 ==> e.isoSize >= 63)
  {
    var k :| 0 <= k < |alts| && IsoMatches(alts, setting, e, k);
    if setting == 6 && UniqueSettings(alts) && e.wbsAlt == 6 {
      PublishedPacketFits(alts, e);
    }
  }

  // The standing receives: one interrupt, two bulk and the given number of isochronous.
  predicate Armed(s: seq<Slot>, iso: nat) {
    Receivers(s, 4) == 1 && Receivers(s, 2) == 2 && Receivers(s, 3) == iso
  }

  lemma ArmedLaunch(before: seq<Slot>, after: seq<Slot>, kind: Byte, i: nat, iso: nat)
    requires Launched(before, after, kind, i) && Armed(before, iso)
    ensures Armed(after, iso)
  {
    ReceiversUpdate(before, i, after[i], 2);
    ReceiversUpdate(before, i, after[i], 3);
    ReceiversUpdate(before, i, after[i], 4);
  }

  lemma ArmedSurvives(before: seq<Slot>, after: seq<Slot>, iso: nat)
    requires Armed(before, iso) && Survives(before, after, 0, false, false)
    ensures Armed(after, iso)
  {
    ReceiversSurvive(before, after, 2, false);
    ReceiversSurvive(before, after, 3, false);
    ReceiversSurvive(before, after, 4, false);
  }

  // Stopping the isochronous receives leaves the others.
  lemma ArmedStops(before: seq<Slot>, after: seq<Slot>, iso: nat)
    requires Armed(before, iso) && Survives(before, after, 0, false, true) && NoIso(after)
    ensures Armed(after, 0)
  {
    NoIsoHasNoReceivers(after);
    ReceiversSurvive(before, after, 2, true);
    ReceiversSurvive(before, after, 4, true);
  }

  // ------------------------------------------------------------------ the owner

  class Usb {
    const lib: Libusb
    const clock: Clock
    const incoming: Incoming
    const slots: array<Slot>
    const alts: seq<Alternate>
    var endpoints: Selection
    var alt: nat
    var fatal: int
    var stopping: bool
    var stoppingSco: bool
    var alt6Phase: bool
    var isoRxErrors: nat
    var isoTxErrors: nat
    ghost var healthy: bool    // receivers started and no endpoint change has failed
    ghost var alt6Sends: nat   // accepted alternate-6 sends, and the frames they used
    ghost var alt6Used: nat
    ghost var polled: bool     // events were handled since the last change or transmission
    ghost var pumps: nat       // how often events were handled
    ghost var failures: nat    // changes, transmissions and pumps that failed for good
    ghost var transmitted: seq<Packet> // accepted packets, each with its kind in front

    // Slots hold exactly the allocated transfers; all but `waiting` are in flight.
    ghost predicate Owns(waiting: set<nat>)
      reads this, lib, slots
    {
      && slots.Length == TRANSFERS
      && lib.Valid()
      && Held(slots[..], lib.transfers, lib.buffers, lib.inFlight, waiting)
    }

    ghost predicate Configured()
      reads this, slots
    {
      && slots.Length == TRANSFERS
      && Offers(alts, endpoints)
      && (alt == 6 && UniqueSettings(alts) ==> endpoints.isoSize >= 63)
      && (alt == 0 ==> NoIso(slots[..]))
      && Paced(alt6Phase, alt6Sends, alt6Used)
    }

    ghost predicate Standing()
      reads this, slots
    {
      healthy && fatal == 0 && !stopping ==>
        !stoppingSco && Armed(slots[..], if alt != 0 then 2 else 0)
    }

    ghost predicate Valid()
      reads this, lib, slots, incoming
    {
      Owns({}) && Configured() && Standing() && incoming.Valid() && fatal <= 0
    }

    // Discovery for alternate 2 already succeeded when the device was opened.
    constructor (alts: seq<Alternate>, endpoints: Selection)
      requires Offers(alts, endpoints)
      ensures Valid() && !healthy && fatal == 0 && alt == 0 && !stopping && !stoppingSco
      ensures this.alts == alts && incoming.View() == Backlog([], 0, false, [])
      ensures slots.Length == 72 && forall i :: 0 <= i < TRANSFERS ==> slots[i].Empty?
      ensures fresh(lib) && fresh(clock) && fresh(incoming) && fresh(slots) && transmitted == []
    {
      lib := new Libusb();
      clock := new Clock();
      incoming := new Incoming();
      slots := new Slot[TRANSFERS](_ => Empty);
      this.alts, this.endpoints := alts, endpoints;
      alt, fatal, stopping, stoppingSco, alt6Phase := 0, 0, false, false, false;
      isoRxErrors, isoTxErrors := 0, 0;
      healthy, polled, alt6Sends, alt6Used, transmitted := false, false, 0, 0, [];
      pumps, failures := 0, 0;
      new;
      assert Ids(slots[..]) == {};
    }

    method FreeSlot(i: nat)
      requires i < slots.Length && slots[i].Busy? && Owns({slots[i].id})
      modifies slots, lib
      ensures Owns({}) && slots[..] == old(slots[..])[i := Empty]
      ensures lib.next == old(lib.next) && lib.done == old(lib.done) && lib.refusals == old(lib.refusals)
    {
      IdsRemove(slots[..], i);
      var id := slots[i].id;
      lib.FreeBuffer(id);
      lib.FreeTransfer(id);
      slots[i] := Empty;
      assert slots[..] == old(slots[..])[i := Empty];
    }

    method Allocate(kind: Byte, receive: bool) returns (r: Result<nat, int>)
      requires Owns({})
      modifies slots, lib
      ensures r.Ok? ==>
                var i := r.value;
                && i < TRANSFERS && old(slots[..])[i].Empty? && slots[i].Busy?
                && slots[i].kind == kind && slots[i].receive == receive
                && slots[..] == old(slots[..])[i := slots[i]] && slots[i].id >= old(lib.next)
                && Owns({slots[i].id})
      ensures r.Err? ==> Owns({}) && slots[..] == old(slots[..]) && lib.transfers == old(lib.transfers)
      ensures (r.Err? ==> r.error == -ENOBUFS || r.error == -ENOMEM) && lib.next >= old(lib.next)
      ensures r == Err(-ENOBUFS) <==> Full(old(slots[..]))
      ensures lib.refusals >= old(lib.refusals) && (r == Err(-ENOMEM) <==> lib.refusals > old(lib.refusals))
    {
      var i := 0;
      while i < TRANSFERS && slots[i].Busy?
        invariant 0 <= i <= TRANSFERS
        invariant forall k :: 0 <= k < i ==> slots[..][k].Busy?
      {
        i := i + 1;
      }
      if i == TRANSFERS {
        return Err(-ENOBUFS);
      }
      assert slots[..][i].Empty?;
      var transfer := lib.Alloc();
      if transfer.None? {
        return Err(-ENOMEM);
      }
      var buffer := lib.AllocBuffer(transfer.value);
      if !buffer {
        lib.FreeTransfer(transfer.value);
        return Err(-ENOMEM);
      }
      IdsAdd(slots[..], i, Busy(transfer.value, kind, receive));
      slots[i] := Busy(transfer.value, kind, receive);
      assert slots[..] == old(slots[..])[i := slots[i]];
      return Ok(i);
    }

    // A refused submission frees what was allocated for it.
    method SubmitSlot(i: nat) returns (rc: int)
      requires i < slots.Length && slots[i].Busy? && Owns({slots[i].id})
      modifies slots, lib
      ensures Owns({}) && (-12 <= rc <= 0 || rc == -99) && lib.next == old(lib.next)
      ensures slots[..] == if rc == 0 then old(slots[..]) else old(slots[..])[i := Empty]
      ensures lib.refusals >= old(lib.refusals) && (rc != 0 <==> lib.refusals > old(lib.refusals))
    {
      IdsRemove(slots[..], i);
      rc := lib.Submit(slots[i].id);
      if rc != 0 {
        FreeSlot(i);
      }
    }

    // One new receive, or no change.
    method Receive(kind: Byte) returns (rc: int)
      requires Owns({})
      modifies slots, lib
      ensures Owns({}) && rc <= 0 && lib.next >= old(lib.next) && lib.refusals >= old(lib.refusals)
      ensures rc != 0 <==> Full(old(slots[..])) || lib.refusals > old(lib.refusals)
      ensures rc != 0 ==> slots[..] == old(slots[..])
      ensures rc == 0 ==> exists i ::
                0 <= i < TRANSFERS && old(slots[..])[i].Empty? && slots[i].Busy? && slots[i].receive && slots[i].kind == kind
                && slots[i].id >= old(lib.next) && slots[..] == old(slots[..])[i := slots[i]]
    {
      var r := Allocate(kind, true);
      if r.Err? {
        return r.error;
      }
      var i := r.value;
      ghost var placed := slots[..];
      rc := SubmitSlot(i);
      assert placed[i := Empty] == old(slots[..]);
      assert placed[i] == slots[..][i] || rc != 0;
    }

    // As `Receive`, in terms of the standing receives.
    method Arm(kind: Byte) returns (rc: int)
      requires Owns({}) && kind in {2, 3, 4}
      modifies slots, lib
      ensures Owns({}) && lib.next >= old(lib.next) && Renewed(old(slots[..]), slots[..], old(lib.next))
      ensures lib.refusals >= old(lib.refusals) && (rc != 0 <==> Full(old(slots[..])) || lib.refusals > old(lib.refusals))
      ensures rc == 0 ==> exists i :: OneMore(old(slots[..]), slots[..], i)
      ensures rc == 0 ==> forall k: Byte :: Receivers(slots[..], k) == Receivers(old(slots[..]), k) + if k == kind then 1 else 0
      ensures rc != 0 ==> slots[..] == old(slots[..])
      ensures kind != 3 && NoIso(old(slots[..])) ==> NoIso(slots[..])
    {
      rc := Receive(kind);
      if rc == 0 {
        ghost var i: int :| 0 <= i < TRANSFERS && old(slots[..])[i].Empty? && slots[i].Busy? && slots[i].receive
          && slots[i].kind == kind && slots[i].id >= old(lib.next) && slots[..] == old(slots[..])[i := slots[i]];
        assert OneMore(old(slots[..]), slots[..], i);
        forall k: Byte ensures Receivers(slots[..], k) == Receivers(old(slots[..]), k) + if k == kind then 1 else 0 {
          ReceiversUpdate(old(slots[..]), i, slots[i], k);
        }
      }
    }

    // One interrupt and two bulk receives, on a device that has none yet.
    method StartReceivers() returns (rc: int)
      requires Valid() && alt == 0 && !stopping && !stoppingSco && !healthy
      requires forall i :: 0 <= i < TRANSFERS ==> slots[i].Empty?
      modifies this`healthy, slots, lib
      ensures Valid() && healthy == (rc == 0)
      ensures rc == 0 <==> lib.refusals == old(lib.refusals)
    {
      rc := ArmControl();
      healthy := rc == 0;
    }

    method ArmControl() returns (rc: int)
      requires Owns({}) && forall i :: 0 <= i < TRANSFERS ==> slots[i].Empty?
      modifies slots, lib
      ensures Owns({}) && NoIso(slots[..]) && (rc == 0 ==> Armed(slots[..], 0))
      ensures rc == 0 <==> lib.refusals == old(lib.refusals)
    {
      EmptyHasNoReceivers(slots[..], 2);
      EmptyHasNoReceivers(slots[..], 3);
      EmptyHasNoReceivers(slots[..], 4);
      ghost var s0 := slots[..];
      assert s0[0].Empty?;
      rc := Arm(4);
      if rc != 0 {
        return;
      }
      ghost var s1 := slots[..];
      ghost var i :| OneMore(s0, s1, i);
      ThreeAreFree(s0, s1, s1, i, i);
      rc := Arm(2);
      if rc != 0 {
        return;
      }
      ghost var j :| OneMore(s1, slots[..], j);
      ThreeAreFree(s0, s1, slots[..], i, j);
      rc := Arm(2);
    }

    // ---------------------------------------------------------------- completion

    ghost predicate Stopped(kind: Byte)
      reads this
    {
      stopping || (kind == 3 && stoppingSco)
    }

    // The completion callback: re-arm the transfer or free it. A receive survives exactly
    // when nothing is being stopped and no failure has been recorded, before or now.
    method Completed(i: nat, c: Completion)
      requires Owns({}) && incoming.Valid() && i < slots.Length && slots[i].Busy?
      modifies this`fatal, this`isoRxErrors, this`isoTxErrors, slots, lib, incoming
      ensures Owns({}) && incoming.Valid() && lib.next == old(lib.next)
      ensures lib.done == old(lib.done) + [Done(old(slots[i]), c)] && lib.refusals >= old(lib.refusals)
      ensures var slot, stop := old(slots[i]), old(Stopped(slots[i].kind));
              fatal == if lib.refusals > old(lib.refusals) then -EIO else FailureCode(slot, c, stop, old(fatal))
      ensures (old(fatal) != 0 ==> fatal != 0) && (old(fatal) <= 0 ==> fatal <= 0)
      ensures var slot, stop := old(slots[i]), old(Stopped(slots[i].kind));
              slots[..] == if slot.receive && !stop && fatal == 0 then old(slots[..]) else old(slots[..])[i := Empty]
      ensures var slot, stop := old(slots[i]), old(Stopped(slots[i].kind));
              && isoRxErrors == old(isoRxErrors) + (if slot.receive && !stop then Losses(slot.kind, slot.receive, c) else 0)
              && isoTxErrors == old(isoTxErrors) + (if !slot.receive && !stop then Losses(slot.kind, slot.receive, c) else 0)
      ensures var slot, stop := old(slots[i]), old(Stopped(slots[i].kind));
              incoming.View() ==
              if c.status == COMPLETED && !stop && slot.receive
              then AcceptAll(old(incoming.View()), slot.kind, Pieces(slot.kind, c))
              else old(incoming.View())
    {
      var slot := slots[i];
      IdsRemove(slots[..], i);
      lib.Finish(slot, c);
      var stop := stopping || (slot.kind == 3 && stoppingSco);
      var isoLoss := slot.kind == 3 && (c.status == ERROR || c.status == TIMED_OUT);
      Assess(slot, c, stop, isoLoss);
      if slot.receive && !stop && fatal == 0 && (c.status == COMPLETED || isoLoss) {
        var rc := lib.Submit(slot.id);
        if rc == 0 {
          return;
        }
        fatal := -EIO;
      }
      FreeSlot(i);
    }

    // Record what a completion means, and hand over what it received.
    method Assess(slot: Slot, c: Completion, stop: bool, isoLoss: bool)
      requires incoming.Valid() && slot.Busy?
      requires isoLoss == (slot.kind == 3 && (c.status == ERROR || c.status == TIMED_OUT))
      modifies this`fatal, this`isoRxErrors, this`isoTxErrors, incoming
      ensures incoming.Valid()
      ensures fatal == FailureCode(slot, c, stop, old(fatal))
      ensures isoRxErrors == old(isoRxErrors) + (if slot.receive && !stop then Losses(slot.kind, slot.receive, c) else 0)
      ensures isoTxErrors == old(isoTxErrors) + (if !slot.receive && !stop then Losses(slot.kind, slot.receive, c) else 0)
      ensures incoming.View() ==
              if c.status == COMPLETED && !stop && slot.receive
              then AcceptAll(old(incoming.View()), slot.kind, Pieces(slot.kind, c))
              else old(incoming.View())
    {
      if isoLoss && !stop {
        if slot.receive {
          isoRxErrors := isoRxErrors + 1;
        } else {
          isoTxErrors := isoTxErrors + 1;
        }
      }
      if c.status == CANCELLED && !stop {
        fatal := -ECANCELED;
      }
      if c.status != COMPLETED && c.status != CANCELLED && !isoLoss {
        fatal := -EIO;
      }
      if c.status == COMPLETED && !stop {
        if slot.receive {
          Hand(slot.kind, c);
        } else if slot.kind == 3 {
          isoTxErrors := isoTxErrors + Damaged(c.packets, false);
        } else if c.short {
          fatal := -EIO;
        }
      }
    }

    // Give received data to the receiver callback.
    method Hand(kind: Byte, c: Completion)
      requires incoming.Valid()
      modifies this`fatal, this`isoRxErrors, incoming
      ensures incoming.Valid()
      ensures incoming.View() == AcceptAll(old(incoming.View()), kind, Pieces(kind, c))
      ensures fatal == if c.panics then -EIO else old(fatal)
      ensures isoRxErrors == old(isoRxErrors) + if kind == 3 then Damaged(c.packets, true) else 0
    {
      if kind == 3 {
        HandPackets(c.packets);
      } else if c.bytes != [] {
        incoming.Receive(kind, c.bytes);
        assert [c.bytes][..0] == [];
      }
      if c.panics {
        fatal := -EIO;
      }
    }

    method HandPackets(packets: seq<IsoPacket>)
      requires incoming.Valid()
      modifies this`isoRxErrors, incoming
      ensures incoming.Valid()
      ensures incoming.View() == AcceptAll(old(incoming.View()), 3, Intact(packets))
      ensures isoRxErrors == old(isoRxErrors) + Damaged(packets, true)
    {
      var k := 0;
      while k < |packets|
        invariant 0 <= k <= |packets| && incoming.Valid()
        invariant incoming.View() == AcceptAll(old(incoming.View()), 3, Intact(packets[..k]))
        invariant isoRxErrors == old(isoRxErrors) + Damaged(packets[..k], true)
      {
        NextPacket(old(incoming.View()), packets, k);
        HandPacket(packets[k]);
        k := k + 1;
      }
      assert packets[..k] == packets;
    }

    method HandPacket(p: IsoPacket)
      requires incoming.Valid()
      modifies this`isoRxErrors, incoming
      ensures incoming.Valid()
      ensures incoming.View() ==
              if p.status == COMPLETED && p.bytes != [] then Accept(old(incoming.View()), 3, p.bytes) else old(incoming.View())
      ensures isoRxErrors == old(isoRxErrors) + if p.status != COMPLETED then 1 else 0
    {
      if p.status != COMPLETED {
        isoRxErrors := isoRxErrors + 1;
      } else if p.bytes != [] {
        incoming.Receive(3, p.bytes);
      }
    }

    // Let libusb complete one transfer, any of them, with any status; or none.
    method CompleteAny()
      requires Owns({}) && incoming.Valid()
      modifies this`fatal, this`isoRxErrors, this`isoTxErrors, slots, lib, incoming
      ensures Owns({}) && incoming.Valid() && lib.next == old(lib.next)
      ensures (old(fatal) != 0 ==> fatal != 0) && (old(fatal) <= 0 ==> fatal <= 0)
      ensures Survives(old(slots[..]), slots[..], fatal, stopping, stoppingSco)
      ensures Grows(old(incoming.View()), incoming.View())
      ensures old(lib.done) <= lib.done && lib.refusals >= old(lib.refusals)
      ensures Clean(lib.done, |old(lib.done)|, stopping, stoppingSco) && lib.refusals == old(lib.refusals) ==> fatal == old(fatal)
    {
      var i: nat, c: Completion := *, *;
      if i < TRANSFERS && slots[i].Busy? {
        ghost var before, view := slots[..], incoming.View();
        Completed(i, c);
        AcceptAllGrows(view, before[i].kind, Pieces(before[i].kind, c));
        assert lib.done[|old(lib.done)|] == Done(before[i], c);
      }
    }

    // Let libusb complete any number of transfers.
    method Pump() returns (rc: int)
      requires Owns({}) && incoming.Valid()
      modifies this`fatal, this`isoRxErrors, this`isoTxErrors, slots, lib, incoming
      ensures Owns({}) && incoming.Valid() && lib.next == old(lib.next)
      ensures (old(fatal) != 0 ==> fatal != 0) && (old(fatal) <= 0 ==> fatal <= 0)
      ensures (rc == 0 ==> fatal == 0) && (old(fatal) <= 0 ==> rc <= 0)
      ensures Survives(old(slots[..]), slots[..], fatal, stopping, stoppingSco)
      ensures Grows(old(incoming.View()), incoming.View())
      ensures old(lib.done) <= lib.done && lib.refusals >= old(lib.refusals)
      ensures Clean(lib.done, |old(lib.done)|, stopping, stoppingSco) && lib.refusals == old(lib.refusals) ==> fatal == old(fatal)
    {
      var events: nat := *;
      while events > 0
        invariant Owns({}) && incoming.Valid() && lib.next == old(lib.next)
        invariant (old(fatal) != 0 ==> fatal != 0) && (old(fatal) <= 0 ==> fatal <= 0)
        invariant Survives(old(slots[..]), slots[..], fatal, stopping, stoppingSco)
        invariant Grows(old(incoming.View()), incoming.View())
        invariant old(lib.done) <= lib.done && lib.refusals >= old(lib.refusals)
        invariant Clean(lib.done, |old(lib.done)|, stopping, stoppingSco) && lib.refusals == old(lib.refusals) ==> fatal == old(fatal)
      {
        ghost var before, view := slots[..], incoming.View();
        CompleteAny();
        GrowsTransitive(old(incoming.View()), view, incoming.View());
        SurvivesTransitive(old(slots[..]), before, slots[..], fatal, stopping, stoppingSco);
        events := events - 1;
      }
      var failure: int :| failure <= 0;
      rc := if failure != 0 && failure != INTERRUPTED then failure else fatal;
    }

    // Take the oldest received fragment.
    method NextFragment() returns (item: (Byte, Packet))
      requires Valid() && incoming.queue != []
      modifies incoming
      ensures Valid() && item == old(incoming.queue)[0] && incoming.queue == old(incoming.queue)[1..]
      ensures incoming.accepted == old(incoming.accepted)
    {
      item := incoming.Pop();
    }

    // Pumping between calls keeps everything the owner promises.
    method PumpEvents() returns (rc: int)
      requires Valid()
      modifies this`polled, this`pumps, this`failures, this`fatal, this`isoRxErrors, this`isoTxErrors, slots, lib, incoming
      ensures Valid() && polled && pumps == old(pumps) + 1 && failures == old(failures) + if rc < 0 then 1 else 0
      ensures (old(fatal) != 0 ==> fatal != 0) && (old(fatal) <= 0 ==> fatal <= 0)
      ensures (rc == 0 ==> fatal == 0) && (old(fatal) <= 0 ==> rc <= 0)
      ensures Grows(old(incoming.View()), incoming.View())
      ensures old(lib.done) <= lib.done && lib.refusals >= old(lib.refusals)
      ensures Clean(lib.done, |old(lib.done)|, stopping, stoppingSco) && lib.refusals == old(lib.refusals) ==> fatal == old(fatal)
    {
      rc := Pump();
      CountPump(rc);
      if healthy && fatal == 0 && !stopping {
        ArmedSurvives(old(slots[..]), slots[..], if alt != 0 then 2 else 0);
      }
    }

    method CountPump(rc: int)
      modifies this`polled, this`pumps, this`failures
      ensures polled && pumps == old(pumps) + 1 && failures == old(failures) + if rc < 0 then 1 else 0
    {
      polled, pumps := true, pumps + 1;
      if rc < 0 {
        failures := failures + 1;
      }
    }

    // ---------------------------------------------------------------- cancellation

    predicate Active(isoOnly: bool)
      reads slots
      requires slots.Length == TRANSFERS
    {
      exists i :: 0 <= i < TRANSFERS && slots[i].Busy? && (isoOnly ==> slots[i].kind == 3)
    }

    // Wait for the selected transfers. Success means none is left in flight; a time-out is
    // reported only at or after two seconds from `start`, with one still there.
    method Cancel(isoOnly: bool) returns (rc: int, ghost start: int)
      requires Owns({}) && incoming.Valid()
      modifies this`fatal, this`isoRxErrors, this`isoTxErrors, slots, lib, incoming, clock
      ensures Owns({}) && incoming.Valid()
      ensures (old(fatal) != 0 ==> fatal != 0) && (old(fatal) <= 0 ==> fatal <= 0)
      ensures Survives(old(slots[..]), slots[..], fatal, stopping, stoppingSco)
      ensures Grows(old(incoming.View()), incoming.View()) && lib.next == old(lib.next)
      ensures rc == 0 || rc == -EIO || rc == -ETIMEDOUT
      ensures lib.refusals >= old(lib.refusals) && clock.failures >= old(clock.failures)
      ensures rc == -EIO <==> clock.failures > old(clock.failures)
      ensures rc == 0 ==> !Active(isoOnly)
      ensures clock.now >= start >= old(clock.now)
      ensures rc == -ETIMEDOUT ==> clock.now >= start + 2000 && Active(isoOnly)
    {
      var first := clock.Read();
      start := clock.now;
      if first.None? {
        return -EIO, start;
      }
      var deadline := first.value + 2000;
      // libusb_cancel_transfer only asks for an early completion; see `Pump`.
      while Active(isoOnly)
        invariant Owns({}) && incoming.Valid()
        invariant (old(fatal) != 0 ==> fatal != 0) && (old(fatal) <= 0 ==> fatal <= 0)
        invariant Survives(old(slots[..]), slots[..], fatal, stopping, stoppingSco)
        invariant Grows(old(incoming.View()), incoming.View()) && lib.next == old(lib.next)
        invariant lib.refusals >= old(lib.refusals) && clock.failures == old(clock.failures) && clock.now >= start
        decreases if clock.now < deadline then deadline - clock.now else 0, clock.patience
      {
        var now := clock.Read();
        if now.None? {
          return -EIO, start;
        }
        if now.value >= deadline {
          return -ETIMEDOUT, start;
        }
        ghost var before, view := slots[..], incoming.View();
        var _ := Pump();
        GrowsTransitive(old(incoming.View()), view, incoming.View());
        SurvivesTransitive(old(slots[..]), before, slots[..], fatal, stopping, stoppingSco);
      }
      return 0, start;
    }

    // ---------------------------------------------------------------- endpoint changes

    ghost function AltFor(mode: int): nat {
      if mode == 2 then 2 else if mode == 3 then WideBand(alts).0 else 0
    }

    method LoadDescriptors(setting: nat) returns (ok: bool)
      requires Offers(alts, endpoints)
      modifies this`endpoints, lib`refusals
      ensures Offers(alts, endpoints) && lib.refusals >= old(lib.refusals)
      ensures !ok <==> lib.refusals > old(lib.refusals) || !Discoverable(alts, setting)
      ensures ok ==> Discoverable(alts, setting) && (setting == 6 && UniqueSettings(alts) && endpoints.wbsAlt == 6 ==> endpoints.isoSize >= 63)
      ensures !ok ==> endpoints == old(endpoints)
    {
      var readable := lib.Ask();
      if !readable {
        return false;
      }
      var r := Discover(alts, setting);
      if r.Err? {
        return false;
      }
      DiscoveryOffers(alts, setting, r.value);
      endpoints := r.value;
      return true;
    }

    // Switch the synchronous endpoint. Success leaves exactly the alternate of the mode.
    method SetSco(mode: int) returns (rc: int)
      requires Valid()
      modifies this, slots, lib, incoming, clock
      ensures Valid()
      ensures (old(fatal) != 0 ==> fatal != 0) && (old(fatal) <= 0 ==> fatal <= 0)
      ensures stopping == old(stopping) && alt6Phase == old(alt6Phase) && alt6Sends == old(alt6Sends) && transmitted == old(transmitted)
      ensures Grows(old(incoming.View()), incoming.View())
      ensures rc == 0 ==> mode in {0, 2, 3} && alt == AltFor(mode) && (mode != 0 <==> alt != 0) && healthy == old(healthy)
      ensures rc <= 0 && (rc == 0 && old(fatal) == 0 ==> fatal == 0)
      ensures mode in {0, 2, 3} && old(alt) == AltFor(mode) && (mode == 0 || old(alt) != 0) ==> rc == 0 && slots[..] == old(slots[..])
      ensures alt != old(alt) ==> Returned(old(slots[..]), slots[..])
      ensures pumps == old(pumps) && failures == old(failures) + if rc < 0 then 1 else 0
      ensures mode !in {0, 2, 3} ==> rc == -EINVAL
      ensures mode != 0 && mode in {2, 3} && AltFor(mode) == 0 ==> rc == -ENOTSUP
      ensures rc != 0 ==>
                || mode !in {0, 2, 3} || (mode != 0 && AltFor(mode) == 0)
                || clock.failures > old(clock.failures) || lib.refusals > old(lib.refusals) || fatal != 0
                || clock.now >= old(clock.now) + 2000
                || (mode != 0 && (!Discoverable(alts, AltFor(mode)) || !Roomy(old(slots[..]))))
    {
      if mode != 0 && mode != 2 && mode != 3 {
        failures := failures + 1;
        return -EINVAL;
      }
      var target := if mode == 2 then 2 else if mode == 3 then endpoints.wbsAlt else 0;
      if mode != 0 && target == 0 {
        failures := failures + 1;
        return -ENOTSUP;
      }
      if target == alt {
        return 0;
      }
      rc := Switch(target);
      if rc < 0 {
        failures := failures + 1;
      }
    }

    method Switch(target: nat) returns (rc: int)
      requires Valid() && target != alt && (target == 6 ==> endpoints.wbsAlt == 6)
      modifies this, slots, lib, incoming, clock
      ensures Valid()
      ensures (old(fatal) != 0 ==> fatal != 0) && (old(fatal) <= 0 ==> fatal <= 0)
      ensures stopping == old(stopping) && alt6Phase == old(alt6Phase) && alt6Sends == old(alt6Sends) && transmitted == old(transmitted)
      ensures Grows(old(incoming.View()), incoming.View()) && pumps == old(pumps) && failures == old(failures)
      ensures rc <= 0 && (rc == 0 ==> alt == target && fatal == 0 && healthy == old(healthy))
      ensures alt != old(alt) ==> Returned(old(slots[..]), slots[..])
      ensures rc != 0 ==>
                || clock.failures > old(clock.failures) || lib.refusals > old(lib.refusals) || fatal != 0
                || clock.now >= old(clock.now) + 2000
                || (target != 0 && (!Discoverable(alts, target) || !Roomy(old(slots[..]))))
    {
      ghost var was := healthy && !stopping;
      IdsBelow(slots[..], lib.transfers, lib.next);
      rc := StopIso();
      if rc != 0 {
        return;
      }
      ghost var between, next := slots[..], lib.next;
      rc := Restart(target, was, old(healthy));
      IsoReturns(old(slots[..]), between, slots[..], next);
    }

    method Restart(target: nat, ghost was: bool, ghost before: bool) returns (rc: int)
      requires Owns({}) && Configured() && incoming.Valid() && alt == 0 && fatal == 0 && !healthy
      requires target == 6 ==> endpoints.wbsAlt == 6
      requires (was ==> Armed(slots[..], 0)) && (before && !stopping ==> was)
      modifies this`alt, this`endpoints, this`stoppingSco, this`healthy, slots, lib
      ensures Valid() && rc <= 0 && Renewed(old(slots[..]), slots[..], old(lib.next))
      ensures rc == 0 ==> alt == target && healthy == before
      ensures lib.refusals >= old(lib.refusals)
      ensures rc != 0 ==> target != 0 && (lib.refusals > old(lib.refusals) || !Discoverable(alts, target) || !Roomy(old(slots[..])))
    {
      if target == 0 {
        stoppingSco := false;
        healthy := before;
        return 0;
      }
      rc := StartIso(target, was);
      healthy := rc == 0 && before;
    }

    // Wait until no isochronous transfer is left, then select alternate 0.
    method StopIso() returns (rc: int)
      requires Valid()
      modifies this`healthy, this`polled, this`stoppingSco, this`alt, this`fatal, this`isoRxErrors, this`isoTxErrors, slots, lib, incoming, clock
      ensures Owns({}) && Configured() && incoming.Valid() && !healthy && endpoints == old(endpoints)
      ensures (old(fatal) != 0 ==> fatal != 0) && (old(fatal) <= 0 ==> fatal <= 0)
      ensures Grows(old(incoming.View()), incoming.View()) && lib.next == old(lib.next)
      ensures rc <= 0 && fatal <= 0 && Survives(old(slots[..]), slots[..], fatal, stopping, true)
      ensures (rc != 0 ==> alt == old(alt)) && (Roomy(old(slots[..])) ==> Roomy(slots[..]))
      ensures lib.refusals >= old(lib.refusals) && clock.failures >= old(clock.failures) && clock.now >= old(clock.now)
      ensures rc != 0 ==>
                || clock.failures > old(clock.failures) || lib.refusals > old(lib.refusals) || fatal != 0
                || clock.now >= old(clock.now) + 2000
      ensures rc == 0 ==> alt == 0 && fatal == 0 && (old(healthy) && !stopping ==> Armed(slots[..], 0))
    {
      ghost var was, before := healthy && !stopping, slots[..];
      healthy := false;
      stoppingSco := true;
      ghost var start;
      rc, start := Cancel(true);
      StillRoomy(before, slots[..]);
      if rc != 0 {
        return;
      }
      if fatal != 0 {
        return fatal;
      }
      rc := SelectZero();
      if rc == 0 && was {
        ArmedStops(before, slots[..], Receivers(before, 3));
      }
    }

    method SelectZero() returns (rc: int)
      requires Owns({}) && Configured() && NoIso(slots[..])
      modifies this`alt, this`polled, this`isoRxErrors, this`isoTxErrors, lib`refusals
      ensures Owns({}) && Configured() && lib.refusals >= old(lib.refusals)
      ensures if rc == 0 then alt == 0 else rc == -EIO && alt == old(alt) && lib.refusals > old(lib.refusals)
    {
      var selected := lib.Ask();
      if !selected {
        return -EIO;
      }
      alt, polled := 0, false;
      isoRxErrors, isoTxErrors := 0, 0;
      return 0;
    }

    // Configure the new alternate and arm its two receives.
    method StartIso(target: nat, ghost was: bool) returns (rc: int)
      requires Owns({}) && Configured() && alt == 0 && target != 0 && fatal == 0 && !healthy
      requires target == 6 ==> endpoints.wbsAlt == 6
      requires was ==> Armed(slots[..], 0)
      modifies this`alt, this`endpoints, this`stoppingSco, slots, lib
      ensures Owns({}) && Configured() && rc <= 0
      ensures lib.next >= old(lib.next) && Renewed(old(slots[..]), slots[..], old(lib.next))
      ensures rc == 0 ==> alt == target && !stoppingSco && (was ==> Armed(slots[..], 2))
      ensures lib.refusals >= old(lib.refusals)
      ensures rc != 0 ==> lib.refusals > old(lib.refusals) || !Discoverable(alts, target) || !Roomy(old(slots[..]))
    {
      var selected := SelectTarget(target);
      if !selected {
        return -EIO;
      }
      rc := ArmTwo();
    }

    method SelectTarget(target: nat) returns (ok: bool)
      requires slots.Length == TRANSFERS && Configured() && lib.Valid() && alt == 0 && target != 0
      requires target == 6 ==> endpoints.wbsAlt == 6
      modifies this`alt, this`endpoints, this`stoppingSco, lib`refusals
      ensures Configured() && lib.Valid() && lib.refusals >= old(lib.refusals)
      ensures ok ==> alt == target && !stoppingSco
      ensures !ok <==> lib.refusals > old(lib.refusals) || !Discoverable(alts, target)
    {
      var loaded := LoadDescriptors(target);
      if !loaded {
        return false;
      }
      var selected := lib.Ask();
      if !selected {
        return false;
      }
      alt := target;
      stoppingSco := false;
      return true;
    }

    // The two isochronous receives.
    method ArmTwo() returns (rc: int)
      requires Owns({})
      modifies slots, lib
      ensures Owns({}) && (rc == 0 || rc == -EIO)
      ensures lib.next >= old(lib.next) && Renewed(old(slots[..]), slots[..], old(lib.next))
      ensures rc == 0 ==> forall k: Byte :: Receivers(slots[..], k) == Receivers(old(slots[..]), k) + if k == 3 then 2 else 0
      ensures lib.refusals >= old(lib.refusals) && (rc != 0 ==> lib.refusals > old(lib.refusals) || !Roomy(old(slots[..])))
    {
      ghost var before := slots[..];
      rc := Arm(3);
      if Roomy(before) {
        if rc == 0 {
          ghost var i :| OneMore(before, slots[..], i);
          RoomForOneMore(before, slots[..], i);
        } else {
          RoomyIsNotFull(before);
        }
      }
      if rc == 0 {
        rc := Arm(3);
      }
      if rc != 0 {
        rc := -EIO;
      }
    }

    // ---------------------------------------------------------------- transmission

    // One outgoing packet: either it is in flight in a slot of its own, or nothing changed.
    method Send(kind: Byte, data: Packet) returns (rc: int, lengths: seq<nat>, buffer: Packet)
      requires Valid()
      modifies this`alt6Phase, this`alt6Sends, this`alt6Used, this`polled, this`failures, this`transmitted, slots, lib
      ensures Valid() && transmitted == old(transmitted) + if rc == 0 then [[kind] + data] else []
      ensures var ok := data != [] && |data| <= 4096 && 1 <= kind <= 3;
              && (rc == -ENOTCONN <==> ok && kind == 3 && alt == 0)
              && (rc == -EINVAL <==> !ok || (kind == 3 && alt == 6 && |data| > endpoints.isoSize))
              && var sendable := ok && (kind == 3 ==> alt != 0 && (alt == 6 ==> |data| <= endpoints.isoSize));
                 && (rc == -ENOBUFS <==> sendable && Full(old(slots[..])))
                 && (rc == 0 <==> sendable && !Full(old(slots[..])) && lib.refusals == old(lib.refusals))
      ensures rc <= 0 && failures == old(failures) + if rc < 0 && rc != -ENOBUFS then 1 else 0
      ensures rc != 0 ==> slots[..] == old(slots[..]) && alt6Phase == old(alt6Phase) && alt6Sends == old(alt6Sends)
      ensures rc == 0 ==>
                && (exists i :: 0 <= i < TRANSFERS && Launched(old(slots[..]), slots[..], kind, i))
                && |data| <= 4096
                && Spread(kind, alt, endpoints.isoSize, old(alt6Phase), |data|, lengths)
                && Delivers(kind, data, buffer)
                && alt6Sends == old(alt6Sends) + if kind == 3 && alt == 6 then 1 else 0
    {
      lengths, buffer := [], [];
      if data == [] || |data| > 4096 || !(1 <= kind <= 3) {
        rc, failures := -EINVAL, failures + 1;
        return;
      }
      if kind == 3 && alt == 0 {
        rc, failures := -ENOTCONN, failures + 1;
        return;
      }
      var alt6 := kind == 3 && alt == 6;
      if alt6 && |data| > endpoints.isoSize {
        rc, failures := -EINVAL, failures + 1;
        return;
      }
      lengths, buffer := Fill(kind, data);
      rc := Dispatch(kind, data);
    }

    // The isochronous lengths and the bytes of a transfer.
    method Fill(kind: Byte, data: Packet) returns (lengths: seq<nat>, buffer: Packet)
      requires 0 < |data| <= 4096 && (kind == 3 ==> endpoints.isoSize > 0)
      ensures Spread(kind, alt, endpoints.isoSize, alt6Phase, |data|, lengths) && Delivers(kind, data, buffer)
    {
      lengths := [];
      if kind == 3 && alt == 6 {
        lengths := seq(Alt6Frames(alt6Phase) - 1, _ => 0) + [|data|];
      } else if kind == 3 {
        lengths := Segments(|data|, endpoints.isoSize);
      }
      LengthsSpread(kind, alt, endpoints.isoSize, alt6Phase, |data|, lengths);
      OutgoingDelivers(kind, data);
      buffer := Outgoing(kind, data);
    }

    // Launch one packet; only an accepted one is recorded and advances the phase.
    method Dispatch(kind: Byte, ghost data: Packet) returns (rc: int)
      requires Valid() && (kind == 3 ==> alt != 0)
      modifies this`alt6Phase, this`alt6Sends, this`alt6Used, this`polled, this`failures, this`transmitted, slots, lib
      ensures Valid() && rc <= 0 && rc != -ENOTCONN && rc != -EINVAL
      ensures failures == old(failures) + if rc < 0 && rc != -ENOBUFS then 1 else 0
      ensures rc == -ENOBUFS <==> Full(old(slots[..]))
      ensures rc == 0 <==> !Full(old(slots[..])) && lib.refusals == old(lib.refusals)
      ensures transmitted == old(transmitted) + if rc == 0 then [[kind] + data] else []
      ensures rc != 0 ==> slots[..] == old(slots[..]) && alt6Phase == old(alt6Phase) && alt6Sends == old(alt6Sends)
      ensures rc == 0 ==> exists i :: 0 <= i < TRANSFERS && Launched(old(slots[..]), slots[..], kind, i)
      ensures rc == 0 ==> alt6Sends == old(alt6Sends) + if kind == 3 && alt == 6 then 1 else 0
    {
      rc := Launch(kind);
      if rc == 0 {
        Accepted(kind, data);
      } else if rc != -ENOBUFS {
        failures := failures + 1;
      }
    }

    method Accepted(kind: Byte, ghost data: Packet)
      requires Valid()
      modifies this`alt6Phase, this`alt6Sends, this`alt6Used, this`polled, this`transmitted
      ensures Valid() && transmitted == old(transmitted) + [[kind] + data]
      ensures alt6Sends == old(alt6Sends) + if kind == 3 && alt == 6 then 1 else 0
    {
      polled := false;
      transmitted := transmitted + [[kind] + data];
      if kind == 3 && alt == 6 {
        Alternate6();
      }
    }

    method Alternate6()
      requires Valid()
      modifies this`alt6Phase, this`alt6Sends, this`alt6Used
      ensures Valid() && alt6Sends == old(alt6Sends) + 1
    {
      PacedStep(alt6Phase, alt6Sends, alt6Used);
      alt6Sends, alt6Used := alt6Sends + 1, alt6Used + Alt6Frames(alt6Phase);
      alt6Phase := !alt6Phase;
    }

    // Allocate and submit one outgoing transfer.
    method Launch(kind: Byte) returns (rc: int)
      requires Valid() && (kind == 3 ==> alt != 0)
      modifies slots, lib
      ensures Valid() && rc <= 0 && rc != -ENOTCONN && rc != -EINVAL
      ensures rc == -ENOBUFS <==> Full(old(slots[..]))
      ensures rc == 0 <==> !Full(old(slots[..])) && lib.refusals == old(lib.refusals)
      ensures rc != 0 ==> slots[..] == old(slots[..])
      ensures rc == 0 ==> exists i :: 0 <= i < TRANSFERS && Launched(old(slots[..]), slots[..], kind, i)
    {
      var r := Allocate(kind, false);
      if r.Err? {
        return r.error;
      }
      var i := r.value;
      ghost var placed := slots[..];
      rc := SubmitSlot(i);
      assert placed[i := Empty] == old(slots[..]);
      if rc == 0 {
        assert Launched(old(slots[..]), slots[..], kind, i);
        if Armed(old(slots[..]), if alt != 0 then 2 else 0) {
          ArmedLaunch(old(slots[..]), slots[..], kind, i, if alt != 0 then 2 else 0);
        }
      }
    }

    // ---------------------------------------------------------------- shutdown

    // Dropping the owner: if every transfer came back, nothing is left allocated.
    method Drop() returns (rc: int)
      requires Valid()
      modifies this, slots, lib, incoming, clock
      ensures stopping && Owns({})
      ensures rc == 0 ==> lib.transfers == {} && lib.buffers == {} && lib.inFlight == {}
      ensures rc != 0 ==> clock.failures > old(clock.failures) || (clock.now >= old(clock.now) + 2000 && lib.inFlight != {})
    {
      stopping := true;
      ghost var start;
      rc, start := Cancel(false);
      if rc == 0 {
        assert Ids(slots[..]) == {};
      } else if rc == -ETIMEDOUT {
        var i :| 0 <= i < TRANSFERS && slots[i].Busy?;
        assert slots[..][i].id in Ids(slots[..]);
        assert slots[i].id in lib.inFlight;
      }
    }
  }

  // Slot i, free before, now holds one outgoing transfer; the others are as they were.
  predicate Launched(before: seq<Slot>, after: seq<Slot>, kind: Byte, i: nat) {
    && |before| == |after| && i < |before| && before[i].Empty?
    && after[i].Busy? && !after[i].receive && after[i].kind == kind
    && after == before[i := after[i]]
  }

  lemma {:induction false} ReceiversSurvive(before: seq<Slot>, after: seq<Slot>, kind: Byte, stoppingSco: bool)
    requires Survives(before, after, 0, false, stoppingSco) && (kind == 3 ==> !stoppingSco)
    ensures Receivers(after, kind) == Receivers(before, kind)
    decreases |before|
  {
    if before != [] {
      ReceiversSurvive(before[..|before| - 1], after[..|after| - 1], kind, stoppingSco);
    }
  }

  // Once no isochronous transfer was left, whatever came after is new.
  lemma IsoReturns(before: seq<Slot>, between: seq<Slot>, after: seq<Slot>, next: nat)
    requires Distinct(before) && |before| == |between| && NoIso(between) && Renewed(between, after, next)
    requires forall i :: 0 <= i < |before| ==> between[i] == before[i] || between[i].Empty?
    requires forall i :: 0 <= i < |before| && before[i].Busy? ==> before[i].id < next
    ensures Returned(before, after)
  {
  }

  lemma StillRoomy(before: seq<Slot>, after: seq<Slot>)
    requires |before| == |after|
    requires forall i :: 0 <= i < |before| ==> after[i] == before[i] || after[i].Empty?
    ensures Roomy(before) ==> Roomy(after)
  {
    if Roomy(before) {
      var i, j :| 0 <= i < j < |before| && before[i].Empty? && before[j].Empty?;
      assert after[i].Empty? && after[j].Empty?;
    }
  }

  lemma SurvivesTransitive(a: seq<Slot>, b: seq<Slot>, c: seq<Slot>, fatal: int, stopping: bool, stoppingSco: bool)
    requires |a| == |b| && Survives(b, c, fatal, stopping, stoppingSco)
    requires Survives(a, b, if fatal == 0 then 0 else 1, stopping, stoppingSco)
    ensures Survives(a, c, fatal, stopping, stoppingSco)
  {
  }

  // From `before` to `after`, slots only became empty; without a failure, every receive
  // that is not being stopped stayed.
  ghost predicate Survives(before: seq<Slot>, after: seq<Slot>, fatal: int, stopping: bool, stoppingSco: bool) {
    && |before| == |after|
    && (forall i :: 0 <= i < |before| ==> after[i] == before[i] || after[i].Empty?)
    && (fatal == 0 && !stopping ==>
          forall i :: 0 <= i < |before| && before[i].Busy? && before[i].receive && !(before[i].kind == 3 && stoppingSco)
                      ==> after[i] == before[i])
  }

  // Unless the queue overflows, everything a completion received is queued, in order.
  lemma ReceivedInOrder(b: Backlog, kind: Byte, c: Completion)
    requires Bounded(b)
    ensures var pieces, after := Pieces(kind, c), AcceptAll(b, kind, Pieces(kind, c));
            !after.overflow ==> after.queue == b.queue + seq(|pieces|, i requires 0 <= i < |pieces| => (kind, pieces[i]))
  {
    PiecesAreNonEmpty(kind, c);
    AcceptAllKeepsOrder(b, kind, Pieces(kind, c));
  }

  lemma PiecesAreNonEmpty(kind: Byte, c: Completion)
    ensures forall i :: 0 <= i < |Pieces(kind, c)| ==> Pieces(kind, c)[i] != []
  {
    IntactAreNonEmpty(c.packets);
  }

  lemma {:induction false} IntactAreNonEmpty(packets: seq<IsoPacket>)
    ensures forall i :: 0 <= i < |Intact(packets)| ==> Intact(packets)[i] != []
    decreases |packets|
  {
    if packets != [] {
      IntactAreNonEmpty(packets[..|packets| - 1]);
    }
  }
}
