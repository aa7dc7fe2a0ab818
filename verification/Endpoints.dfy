// Endpoint discovery over the USB descriptors (floss-usb/src/usb.rs, `discover`).
module Endpoints {
  import opened Wrappers
  import opened Hci

  datatype Endpoint = Endpoint(address: Byte, attributes: Byte, size: nat)
  datatype Alternate = Alternate(
    number: Byte, setting: Byte, class_: Byte, subclass: Byte, protocol: Byte, endpoints: seq<Endpoint>)

  // What discovery publishes.
  datatype Selection = Selection(
    interruptIn: Byte, bulkIn: Byte, bulkOut: Byte,
    isoIn: Byte, isoOut: Byte, isoSize: nat, wbsAlt: nat, wbsSize: nat)

  const NOTHING := Selection(0, 0, 0, 0, 0, 0, 0, 0)
  const ENOTSUP := 95

  // Bits 0 and 1 of the attributes, bit 7 of the address, bits 0 to 10 of the size.
  function Kind(ep: Endpoint): nat { ep.attributes % 4 }
  predicate Inward(ep: Endpoint) { ep.address >= 128 }
  function Capacity(ep: Endpoint): nat { ep.size % 2048 }

  predicate Bluetooth(a: Alternate) {
    a.class_ == 0xe0 && a.subclass == 1 && a.protocol == 1
  }

  // ------------------------------------------------------------------ declarative side

  // The endpoint that counts is the last one of its transfer kind and direction.
  predicate IsLast(eps: seq<Endpoint>, kind: nat, inward: bool, k: nat)
    requires k < |eps|
  {
    && Kind(eps[k]) == kind && Inward(eps[k]) == inward
    && forall j :: k < j < |eps| ==> !(Kind(eps[j]) == kind && Inward(eps[j]) == inward)
  }

  function LastOf(eps: seq<Endpoint>, kind: nat, inward: bool): (r: Option<Endpoint>)
    ensures r.Some? ==> exists k :: 0 <= k < |eps| && eps[k] == r.value && IsLast(eps, kind, inward, k)
    ensures r.None? ==> forall k :: 0 <= k < |eps| ==> !(Kind(eps[k]) == kind && Inward(eps[k]) == inward)
  {
    if eps == [] then None
    else
      var n := |eps| - 1;
      if Kind(eps[n]) == kind && Inward(eps[n]) == inward then assert IsLast(eps, kind, inward, n); Some(eps[n])
      else
        var r := LastOf(eps[..n], kind, inward);
        assert r.Some? ==> forall k :: 0 <= k < n && IsLast(eps[..n], kind, inward, k) ==> IsLast(eps, kind, inward, k);
        r
  }

  function AddressOf(o: Option<Endpoint>): Byte {
    match o case None => 0 case Some(ep) => ep.address
  }

  // A synchronous alternate both of whose directions exist with the same positive size.
  predicate Usable(a: Alternate) {
    var input, output := LastOf(a.endpoints, 1, true), LastOf(a.endpoints, 1, false);
    && Bluetooth(a) && a.number == 1
    && input.Some? && output.Some?
    && input.value.address != 0 && output.value.address != 0
    && Capacity(input.value) == Capacity(output.value) > 0
  }

  function SizeOf(a: Alternate): (n: nat)
    requires Usable(a)
    ensures n > 0
  {
    Capacity(LastOf(a.endpoints, 1, true).value)
  }

  // Wide-band speech choice, independent of the order of the descriptors.
  ghost predicate Supports(alts: seq<Alternate>, setting: nat, least: nat) {
    exists i :: 0 <= i < |alts| && Usable(alts[i]) && alts[i].setting == setting && SizeOf(alts[i]) >= least
  }

  ghost function WideBand(alts: seq<Alternate>): (nat, nat) {
    if Supports(alts, 6, 63) then (6, 60)
    else if Supports(alts, 1, 1) then (1, 24)
    else (0, 0)
  }

  // Isochronous endpoints come from a usable alternate with the wanted setting: the last.
  ghost predicate IsWanted(alts: seq<Alternate>, wanted: nat, k: nat)
    requires k < |alts|
  {
    && Usable(alts[k]) && alts[k].setting == wanted
    && forall j :: k < j < |alts| ==> !(Usable(alts[j]) && alts[j].setting == wanted)
  }

  ghost predicate IsoMatches(alts: seq<Alternate>, wanted: nat, s: Selection, k: nat)
    requires k < |alts|
  {
    && IsWanted(alts, wanted, k)
    && s.isoIn == AddressOf(LastOf(alts[k].endpoints, 1, true))
    && s.isoOut == AddressOf(LastOf(alts[k].endpoints, 1, false))
    && s.isoSize == SizeOf(alts[k])
  }

  predicate Control(a: Alternate) {
    Bluetooth(a) && a.number == 0 && a.setting == 0
  }

  // Control endpoints: the last of their kind over all alternates 0 of interface 0.
  function ControlEndpoint(alts: seq<Alternate>, kind: nat, inward: bool): Byte {
    if alts == [] then 0
    else
      var n := |alts| - 1;
      if Control(alts[n]) && LastOf(alts[n].endpoints, kind, inward).Some? then
        AddressOf(LastOf(alts[n].endpoints, kind, inward))
      else ControlEndpoint(alts[..n], kind, inward)
  }

  ghost predicate Meets(alts: seq<Alternate>, wanted: nat, s: Selection, found: bool) {
    && s.interruptIn == ControlEndpoint(alts, 3, true)
    && s.bulkIn == ControlEndpoint(alts, 2, true)
    && s.bulkOut == ControlEndpoint(alts, 2, false)
    && (s.wbsAlt, s.wbsSize) == WideBand(alts)
    && (found <==> Supports(alts, wanted, 1))
    && (found ==> exists k :: 0 <= k < |alts| && IsoMatches(alts, wanted, s, k))
    && (!found ==> s.isoIn == 0 && s.isoOut == 0 && s.isoSize == 0)
  }

  ghost predicate Discoverable(alts: seq<Alternate>, wanted: nat) {
    && Supports(alts, wanted, 1)
    && ControlEndpoint(alts, 3, true) != 0
    && ControlEndpoint(alts, 2, true) != 0
    && ControlEndpoint(alts, 2, false) != 0
  }

  // ------------------------------------------------------------------ the scan

  function Chosen(control: bool, o: Option<Endpoint>, before: Byte): Byte {
    if control && o.Some? then o.value.address else before
  }

  // The control endpoints found in a list.
  predicate Scanned(start: Selection, s: Selection, control: bool, eps: seq<Endpoint>) {
    s == start.(
      interruptIn := Chosen(control, LastOf(eps, 3, true), start.interruptIn),
      bulkIn := Chosen(control, LastOf(eps, 2, true), start.bulkIn),
      bulkOut := Chosen(control, LastOf(eps, 2, false), start.bulkOut))
  }

  function Noted(s: Selection, control: bool, ep: Endpoint): Selection {
    if !control then s
    else if Kind(ep) == 3 && Inward(ep) then s.(interruptIn := ep.address)
    else if Kind(ep) == 2 && Inward(ep) then s.(bulkIn := ep.address)
    else if Kind(ep) == 2 then s.(bulkOut := ep.address)
    else s
  }

  lemma LastOfNext(eps: seq<Endpoint>, i: nat, kind: nat, inward: bool)
    requires i < |eps|
    ensures LastOf(eps[..i + 1], kind, inward) ==
            if Kind(eps[i]) == kind && Inward(eps[i]) == inward then Some(eps[i]) else LastOf(eps[..i], kind, inward)
  {
    assert eps[..i + 1][..i] == eps[..i];
  }

  lemma ScannedNext(start: Selection, s: Selection, control: bool, eps: seq<Endpoint>, i: nat)
    requires i < |eps| && Scanned(start, s, control, eps[..i])
    ensures Scanned(start, Noted(s, control, eps[i]), control, eps[..i + 1])
  {
    LastOfNext(eps, i, 3, true);
    LastOfNext(eps, i, 2, true);
    LastOfNext(eps, i, 2, false);
  }

  // One alternate's endpoint list.
  method ScanEndpoints(a: Alternate, start: Selection) returns (s: Selection, input: Option<Endpoint>, output: Option<Endpoint>)
    ensures a.number == 1 ==> input == LastOf(a.endpoints, 1, true) && output == LastOf(a.endpoints, 1, false)
    ensures a.number != 1 ==> input == None && output == None
    ensures Scanned(start, s, a.number == 0 && a.setting == 0, a.endpoints)
  {
    s, input, output := start, None, None;
    var control := a.number == 0 && a.setting == 0;
    var i := 0;
    while i < |a.endpoints|
      invariant 0 <= i <= |a.endpoints|
      invariant a.number == 1 ==> input == LastOf(a.endpoints[..i], 1, true) && output == LastOf(a.endpoints[..i], 1, false)
      invariant a.number != 1 ==> input == None && output == None
      invariant Scanned(start, s, control, a.endpoints[..i])
    {
      var ep := a.endpoints[i];
      ScannedNext(start, s, control, a.endpoints, i);
      LastOfNext(a.endpoints, i, 1, true);
      LastOfNext(a.endpoints, i, 1, false);
      s := NoteEndpoint(s, control, ep);
      if a.number == 1 && Kind(ep) == 1 {
        if Inward(ep) {
          input := Some(ep);
        } else {
          output := Some(ep);
        }
      }
      i := i + 1;
    }
    assert a.endpoints[..i] == a.endpoints;
  }

  method NoteEndpoint(before: Selection, control: bool, ep: Endpoint) returns (s: Selection)
    ensures s == Noted(before, control, ep)
  {
    s := before;
    if control {
      if Kind(ep) == 3 && Inward(ep) {
        s := s.(interruptIn := ep.address);
      } else if Kind(ep) == 2 && Inward(ep) {
        s := s.(bulkIn := ep.address);
      } else if Kind(ep) == 2 {
        s := s.(bulkOut := ep.address);
      }
    }
  }

  // How one alternate changes the selection.
  predicate Absorbed(a: Alternate, wanted: nat, before: Selection, was: bool, s: Selection, found: bool) {
    && s.interruptIn == ControlAfter(a, 3, true, before.interruptIn)
    && s.bulkIn == ControlAfter(a, 2, true, before.bulkIn)
    && s.bulkOut == ControlAfter(a, 2, false, before.bulkOut)
    && (s.wbsAlt, s.wbsSize) ==
       (if Usable(a) && a.setting == 6 && SizeOf(a) >= 63 then (6, 60)
        else if Usable(a) && a.setting == 1 && before.wbsAlt == 0 then (1, 24)
        else (before.wbsAlt, before.wbsSize))
    && if Usable(a) && a.setting == wanted then
         && found
         && s.isoIn == AddressOf(LastOf(a.endpoints, 1, true))
         && s.isoOut == AddressOf(LastOf(a.endpoints, 1, false))
         && s.isoSize == SizeOf(a)
       else found == was && s.isoIn == before.isoIn && s.isoOut == before.isoOut && s.isoSize == before.isoSize
  }

  function ControlAfter(a: Alternate, kind: nat, inward: bool, before: Byte): Byte {
    Chosen(Control(a), LastOf(a.endpoints, kind, inward), before)
  }

  method Absorb(a: Alternate, wanted: nat, before: Selection, was: bool) returns (s: Selection, found: bool)
    ensures Absorbed(a, wanted, before, was, s, found)
  {
    s, found := before, was;
    if Bluetooth(a) {
      var input, output;
      s, input, output := ScanEndpoints(a, before);
      if a.number == 1 && input.Some? && output.Some? && input.value.address != 0 && output.value.address != 0
         && Capacity(input.value) == Capacity(output.value) && Capacity(input.value) > 0 {
        if a.setting == 1 && s.wbsAlt == 0 {
          s := s.(wbsAlt := 1, wbsSize := 24);
        }
        if a.setting == 6 && Capacity(input.value) >= 63 {
          s := s.(wbsAlt := 6, wbsSize := 60);
        }
        if a.setting == wanted {
          s := s.(isoIn := input.value.address, isoOut := output.value.address, isoSize := Capacity(input.value));
          found := true;
        }
      }
    }
  }

  method Discover(alts: seq<Alternate>, wanted: nat) returns (r: Result<Selection, int>)
    ensures r.Ok? <==> Discoverable(alts, wanted)
    ensures r.Ok? ==> Meets(alts, wanted, r.value, true)
    ensures r.Err? ==> r.error == -ENOTSUP
  {
    var s, found, i := NOTHING, false, 0;
    while i < |alts|
      invariant 0 <= i <= |alts|
      invariant Meets(alts[..i], wanted, s, found)
    {
      ghost var before, was := s, found;
      s, found := Absorb(alts[i], wanted, s, found);
      MeetsNext(alts, i, wanted, before, was, s, found);
      i := i + 1;
    }
    assert alts[..i] == alts;
    if found && s.interruptIn != 0 && s.bulkIn != 0 && s.bulkOut != 0 {
      return Ok(s);
    }
    return Err(-ENOTSUP);
  }

  lemma MeetsNext(alts: seq<Alternate>, i: nat, wanted: nat, before: Selection, was: bool, s: Selection, found: bool)
    requires i < |alts| && Meets(alts[..i], wanted, before, was)
    requires Absorbed(alts[i], wanted, before, was, s, found)
    ensures Meets(alts[..i + 1], wanted, s, found)
  {
    SupportsNext(alts, i, wanted, 1);
    SupportsNext(alts, i, 6, 63);
    SupportsNext(alts, i, 1, 1);
    IsoNext(alts, i, wanted, before, was, s, found);
    assert alts[..i + 1][..i] == alts[..i];
  }

  lemma SupportsNext(alts: seq<Alternate>, i: nat, setting: nat, least: nat)
    requires i < |alts|
    ensures Supports(alts[..i + 1], setting, least) <==>
            Supports(alts[..i], setting, least) ||
            (Usable(alts[i]) && alts[i].setting == setting && SizeOf(alts[i]) >= least)
  {
    var next, prev := alts[..i + 1], alts[..i];
    assert forall j :: 0 <= j < i ==> next[j] == prev[j];
    assert next[i] == alts[i];
    if Supports(prev, setting, least) {
      var j :| 0 <= j < |prev| && Usable(prev[j]) && prev[j].setting == setting && SizeOf(prev[j]) >= least;
      assert next[j] == prev[j];
    }
  }

  lemma IsoNext(alts: seq<Alternate>, i: nat, wanted: nat, before: Selection, was: bool, s: Selection, found: bool)
    requires i < |alts|
    requires was ==> exists k :: 0 <= k < |alts[..i]| && IsoMatches(alts[..i], wanted, before, k)
    requires Absorbed(alts[i], wanted, before, was, s, found)
    ensures var next := alts[..i + 1];
            found ==> exists k :: 0 <= k < |next| && IsoMatches(next, wanted, s, k)
  {
    if found {
      if Usable(alts[i]) && alts[i].setting == wanted {
        assert IsoMatches(alts[..i + 1], wanted, s, i);
      } else {
        var k :| 0 <= k < i && IsoMatches(alts[..i], wanted, before, k);
        IsoStays(alts, i, wanted, before, s, k);
      }
    }
  }

  lemma IsoStays(alts: seq<Alternate>, i: nat, wanted: nat, before: Selection, s: Selection, k: nat)
    requires k < i < |alts| && IsoMatches(alts[..i], wanted, before, k)
    requires !(Usable(alts[i]) && alts[i].setting == wanted)
    requires s.isoIn == before.isoIn && s.isoOut == before.isoOut && s.isoSize == before.isoSize
    ensures IsoMatches(alts[..i + 1], wanted, s, k)
  {
    var next, prev := alts[..i + 1], alts[..i];
    assert next[k] == prev[k];
    forall j | k < j < |next| ensures !(Usable(next[j]) && next[j].setting == wanted) {
      if j < i {
        assert next[j] == prev[j];
      }
    }
  }

  // ------------------------------------------------------------------ consequences

  // The alternate that discovery reports for wide-band speech can always be discovered
  // again on the same descriptors, and reports itself.
  lemma ReportedAlternateIsDiscoverable(alts: seq<Alternate>, wanted: nat, s: Selection)
    requires Discoverable(alts, wanted) && Meets(alts, wanted, s, true) && s.wbsAlt != 0
    ensures Discoverable(alts, s.wbsAlt)
    ensures forall t :: Meets(alts, s.wbsAlt, t, true) ==> t.wbsAlt == s.wbsAlt && t.wbsSize == s.wbsSize && t.isoSize > 0
  {
    var i :| 0 <= i < |alts| && Usable(alts[i]) && alts[i].setting == s.wbsAlt && SizeOf(alts[i]) >= 1;
  }

  ghost predicate UniqueSettings(alts: seq<Alternate>) {
    forall i, j :: 0 <= i < j < |alts| && Usable(alts[i]) && Usable(alts[j]) ==> alts[i].setting != alts[j].setting
  }

  // With unique settings, a packet of the published size with its 3-byte header always
  // fits the endpoint that alternate 6 configures.
  lemma PublishedPacketFits(alts: seq<Alternate>, s: Selection)
    requires UniqueSettings(alts) && Meets(alts, 6, s, true) && WideBand(alts).0 == 6
    ensures s.wbsSize + 3 <= s.isoSize
  {
    var i :| 0 <= i < |alts| && Usable(alts[i]) && alts[i].setting == 6 && SizeOf(alts[i]) >= 63;
    var k :| 0 <= k < |alts| && IsoMatches(alts, 6, s, k);
    assert i == k;
  }

  // Direction is the top bit of the address, the transfer kind the low two bits of the
  // attributes, the size the low eleven bits of the packet size.
  lemma DirectionIsABit(address: bv8, attributes: Byte, size: nat)
    ensures Inward(Endpoint(address as int, attributes, size)) <==> address & 0x80 != 0
  {
  }

  lemma KindIsTwoBits(address: Byte, attributes: bv8, size: nat)
    ensures Kind(Endpoint(address, attributes as int, size)) == (attributes & 0x03) as int
  {
  }

  lemma SizeIsElevenBits(address: Byte, attributes: Byte, high: nat, low: nat)
    requires low < 2048
    ensures Capacity(Endpoint(address, attributes, 2048 * high + low)) == low
  {
  }

  // A synchronous alternate counts exactly when it is one of interface 1 of a Bluetooth radio
  // whose last endpoints in and out have addresses and the same size, which is not zero.
  lemma UsableExactly(a: Alternate, i: nat, j: nat)
    requires i < |a.endpoints| && IsLast(a.endpoints, 1, true, i)
    requires j < |a.endpoints| && IsLast(a.endpoints, 1, false, j)
    ensures var input, output := a.endpoints[i], a.endpoints[j];
            Usable(a) <==>
              && a.class_ == 224 && a.subclass == 1 && a.protocol == 1 && a.number == 1
              && input.address != 0 && output.address != 0
              && input.size % 2048 == output.size % 2048 != 0
    ensures Usable(a) ==> SizeOf(a) == a.endpoints[i].size % 2048
  {
  }

  lemma UsableNeedsBothDirections(a: Alternate, inward: bool)
    requires forall k :: 0 <= k < |a.endpoints| ==> !(Kind(a.endpoints[k]) == 1 && Inward(a.endpoints[k]) == inward)
    ensures !Usable(a)
  {
  }

  // A control endpoint comes from alternate 0 of interface 0 of a Bluetooth radio; a later one
  // of the same kind replaces it, and nothing else does.
  lemma ControlIsTakenExactly(alts: seq<Alternate>, a: Alternate, kind: nat, inward: bool)
    ensures var last := LastOf(a.endpoints, kind, inward);
            ControlEndpoint(alts + [a], kind, inward) ==
            if a.class_ == 224 && a.subclass == 1 && a.protocol == 1 && a.number == 0 && a.setting == 0 && last.Some?
            then last.value.address else ControlEndpoint(alts, kind, inward)
    ensures ControlEndpoint([], kind, inward) == 0
  {
    assert (alts + [a])[..|alts|] == alts;
  }

  // The descriptors of a usual radio: interrupt, bulk and two synchronous endpoints, the
  // latter with 9 bytes on alternate 1, 17 on alternate 2 and 63 on alternate 6.
  function Synchronous(setting: Byte, size: nat): Alternate {
    Alternate(1, setting, 0xe0, 1, 1, [Endpoint(0x83, 1, size), Endpoint(0x03, 1, size)])
  }

  predicate UsualAlternates(alts: seq<Alternate>) {
    && |alts| == 4
    && alts[0] == Alternate(0, 0, 0xe0, 1, 1, [Endpoint(0x81, 3, 16), Endpoint(0x82, 2, 64), Endpoint(0x02, 2, 64)])
    && alts[1] == Synchronous(1, 9) && alts[2] == Synchronous(2, 17) && alts[3] == Synchronous(6, 63)
  }

  lemma UsualRadio(alts: seq<Alternate>, s: Selection)
    requires UsualAlternates(alts) && Meets(alts, 2, s, true)
    ensures Discoverable(alts, 2)
    ensures s == Selection(0x81, 0x82, 0x02, 0x83, 0x03, 17, 6, 60)
  {
    UsualChoice(alts);
    var k := UsualFields(alts, s);
    UsualSynchronous(alts, s, k);
  }

  lemma UsualFields(alts: seq<Alternate>, s: Selection) returns (k: nat)
    requires Meets(alts, 2, s, true) && Supports(alts, 6, 63)
    requires ControlEndpoint(alts, 3, true) == 0x81 && ControlEndpoint(alts, 2, true) == 0x82 && ControlEndpoint(alts, 2, false) == 0x02
    ensures s == s.(interruptIn := 0x81, bulkIn := 0x82, bulkOut := 0x02, wbsAlt := 6, wbsSize := 60)
    ensures k < |alts| && IsoMatches(alts, 2, s, k) && (Supports(alts, 2, 1) ==> Discoverable(alts, 2))
  {
    k :| 0 <= k < |alts| && IsoMatches(alts, 2, s, k);
  }

  lemma UsualChoice(alts: seq<Alternate>)
    requires UsualAlternates(alts)
    ensures Supports(alts, 6, 63) && Supports(alts, 2, 1)
    ensures ControlEndpoint(alts, 3, true) == 0x81 && ControlEndpoint(alts, 2, true) == 0x82 && ControlEndpoint(alts, 2, false) == 0x02
  {
    UsualControl(alts);
    SynchronousIsUsable(2, 17);
    SynchronousIsUsable(6, 63);
    assert Usable(alts[3]) && Usable(alts[2]);
  }

  lemma UsualSynchronous(alts: seq<Alternate>, s: Selection, k: nat)
    requires UsualAlternates(alts) && k < |alts| && IsoMatches(alts, 2, s, k)
    ensures s.isoIn == 0x83 && s.isoOut == 0x03 && s.isoSize == 17
  {
    SynchronousIsUsable(2, 17);
    assert alts[k].setting == 2;
    assert alts[k] == Synchronous(2, 17);
  }

  // Without a large enough alternate 6 wide-band speech takes alternate 1, with packets of 24
  // bytes, and without both there is none.
  lemma SmallRadio(size: nat)
    requires 0 < size < 63
    ensures WideBand([Synchronous(1, 9), Synchronous(6, size)]) == (1, 24)
    ensures WideBand([Synchronous(6, size)]) == (0, 0)
  {
    SynchronousIsUsable(1, 9);
    SynchronousIsUsable(6, size);
    var alts := [Synchronous(1, 9), Synchronous(6, size)];
    assert Usable(alts[0]) && alts[0].setting == 1;
  }

  lemma SynchronousIsUsable(setting: Byte, size: nat)
    requires 0 < size < 2048
    ensures var a := Synchronous(setting, size);
            && LastOf(a.endpoints, 1, true) == Some(Endpoint(0x83, 1, size)) && LastOf(a.endpoints, 1, false) == Some(Endpoint(0x03, 1, size))
            && Usable(a) && SizeOf(a) == size
  {
    var eps := Synchronous(setting, size).endpoints;
    assert eps[..1] == [Endpoint(0x83, 1, size)];
  }

  lemma {:induction false} UsualControl(alts: seq<Alternate>)
    requires |alts| >= 1 && forall i :: 1 <= i < |alts| ==> !Control(alts[i])
    requires alts[0] == Alternate(0, 0, 0xe0, 1, 1, [Endpoint(0x81, 3, 16), Endpoint(0x82, 2, 64), Endpoint(0x02, 2, 64)])
    ensures ControlEndpoint(alts, 3, true) == 0x81 && ControlEndpoint(alts, 2, true) == 0x82 && ControlEndpoint(alts, 2, false) == 0x02
    decreases |alts|
  {
    if |alts| == 1 {
      var eps := alts[0].endpoints;
      assert eps[..2] == [eps[0], eps[1]] && eps[..2][..1] == [eps[0]];
      assert LastOf([eps[0]], 3, true) == Some(eps[0]);
      assert LastOf(eps[..2], 3, true) == Some(eps[0]) && LastOf(eps[..2], 2, true) == Some(eps[1]);
    } else {
      UsualControl(alts[..|alts| - 1]);
    }
  }

  // Reordering the descriptors does not change the wide-band choice.
  lemma WideBandIgnoresOrder(a: seq<Alternate>, b: seq<Alternate>)
    requires forall x :: x in a <==> x in b
    ensures WideBand(a) == WideBand(b)
  {
    SupportsIgnoresOrder(a, b, 6, 63);
    SupportsIgnoresOrder(b, a, 6, 63);
    SupportsIgnoresOrder(a, b, 1, 1);
    SupportsIgnoresOrder(b, a, 1, 1);
  }

  lemma SupportsIgnoresOrder(a: seq<Alternate>, b: seq<Alternate>, setting: nat, least: nat)
    requires forall x :: x in a ==> x in b
    ensures Supports(a, setting, least) ==> Supports(b, setting, least)
  {
    if Supports(a, setting, least) {
      var i :| 0 <= i < |a| && Usable(a[i]) && a[i].setting == setting && SizeOf(a[i]) >= least;
      assert a[i] in b;
      var j :| 0 <= j < |b| && b[j] == a[i];
    }
  }
}
