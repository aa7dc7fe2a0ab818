// Stereo to mono conversion of signed little-endian PCM (pw-floss/src/pw-floss.c).
module DownmixSpec {
  import opened Arithmetic
  import opened Hci
  import opened Ring

  // Samples of 16, 24 or 32 bits.
  predicate Width(w: nat) {
    w == 2 || w == 3 || w == 4
  }

  // The weight of byte j.
  function Place(j: nat): nat {
    if j == 0 then 1 else 256 * Place(j - 1)
  }

  function Unsigned(bytes: seq<Byte>): nat {
    if bytes == [] then 0 else bytes[0] + 256 * Unsigned(bytes[1..])
  }

  // The weight of the sign bit of w bytes.
  function SignBit(w: nat): nat {
    if w == 0 then 0 else 128 * Place(w - 1)
  }

  // Two's complement.
  function Signed(bytes: seq<Byte>): int {
    var u := Unsigned(bytes);
    if u >= SignBit(|bytes|) then u - 2 * SignBit(|bytes|) else u
  }

  predicate Fits(v: int, w: nat) {
    0 <= v + SignBit(w) < 2 * SignBit(w)
  }

  // Division by two as in C, towards zero.
  function Halved(sum: int): int {
    if sum >= 0 then sum / 2 else -((-sum) / 2)
  }

  // Conversion to an unsigned 32-bit word.
  function Word32(v: int): nat {
    v % 0x1_0000_0000
  }

  function LowBytes(u: nat, w: nat): (r: seq<Byte>)
    ensures |r| == w
    decreases w
  {
    if w == 0 then [] else [u % 256] + LowBytes(u / 256, w - 1)
  }

  // A shift to the right by j bytes.
  function Shifted(u: nat, j: nat): nat
    decreases j
  {
    if j == 0 then u else Shifted(u / 256, j - 1)
  }

  function Encoded(v: int, w: nat): (r: seq<Byte>)
    ensures |r| == w
  {
    LowBytes(Word32(v), w)
  }

  // ------------------------------------------------------------------ bytes and words

  lemma {:induction false} UnsignedFits(bytes: seq<Byte>)
    ensures Unsigned(bytes) < Place(|bytes|)
    decreases |bytes|
  {
    if bytes != [] {
      UnsignedFits(bytes[1..]);
    }
  }

  lemma {:induction false} UnsignedInjective(a: seq<Byte>, b: seq<Byte>)
    requires |a| == |b| && Unsigned(a) == Unsigned(b)
    ensures a == b
    decreases |a|
  {
    if a != [] {
      UnsignedInjective(a[1..], b[1..]);
      assert a == [a[0]] + a[1..] && b == [b[0]] + b[1..];
    }
  }

  // Bytes are gathered from the least significant one on.
  lemma {:induction false} UnsignedAppend(bytes: seq<Byte>, last: Byte)
    ensures Unsigned(bytes + [last]) == Unsigned(bytes) + last * Place(|bytes|)
    decreases |bytes|
  {
    if bytes == [] {
      assert (bytes + [last])[1..] == [];
    } else {
      UnsignedAppend(bytes[1..], last);
      assert (bytes + [last])[1..] == bytes[1..] + [last];
      Reassociate(last, Place(|bytes| - 1));
    }
  }

  lemma Reassociate(x: int, p: int)
    ensures 256 * (x * p) == x * (256 * p) == (256 * p) * x
  {
  }

  lemma {:induction false} LowBytesSplit(u: nat, w: nat)
    ensures u == Unsigned(LowBytes(u, w)) + Place(w) * Shifted(u, w)
    decreases w
  {
    if w > 0 {
      LowBytesSplit(u / 256, w - 1);
      Reassociate(Shifted(u / 256, w - 1), Place(w - 1));
    }
  }

  lemma {:induction false} LowBytesAt(u: nat, w: nat, j: nat)
    requires j < w
    ensures LowBytes(u, w)[j] == Shifted(u, j) % 256
    decreases w
  {
    if j > 0 {
      LowBytesAt(u / 256, w - 1, j - 1);
    }
  }

  // Little-endian two's complement, spelled out for the three widths.
  lemma SignedIsLittleEndian(a: Byte, b: Byte, c: Byte, d: Byte)
    ensures Signed([a, b]) == a + 0x100 * b - if b >= 0x80 then 0x1_0000 else 0
    ensures Signed([a, b, c]) == a + 0x100 * b + 0x1_0000 * c - if c >= 0x80 then 0x100_0000 else 0
    ensures Signed([a, b, c, d]) == a + 0x100 * b + 0x1_0000 * c + 0x100_0000 * d - if d >= 0x80 then 0x1_0000_0000 else 0
  {
    Places();
    FourBytes(a, b, c, d);
  }

  lemma FourBytes(a: Byte, b: Byte, c: Byte, d: Byte)
    ensures Unsigned([a, b]) == a + 0x100 * b
    ensures Unsigned([a, b, c]) == a + 0x100 * b + 0x1_0000 * c
    ensures Unsigned([a, b, c, d]) == a + 0x100 * b + 0x1_0000 * c + 0x100_0000 * d
  {
    Places();
    assert Place(1) == 256;
    UnsignedAppend([], a);
    UnsignedAppend([a], b);
    UnsignedAppend([a, b], c);
    UnsignedAppend([a, b, c], d);
    assert [] + [a] == [a] && [a] + [b] == [a, b] && [a, b] + [c] == [a, b, c] && [a, b, c] + [d] == [a, b, c, d];
  }

  // Halving drops the fraction: it never moves away from zero.
  lemma HalvedIsTruncated(sum: int)
    ensures var half := Halved(sum); 2 * half == sum || (sum > 0 && 2 * half == sum - 1) || (sum < 0 && 2 * half == sum + 1)
  {
  }

  // ------------------------------------------------------------------ round trips

  lemma Residue(u: int, low: nat, q: int, p: nat, want: nat, turns: int)
    requires u == low + p * q == want + p * turns && low < p && want < p
    ensures low == want
  {
    assert p * (q - turns) == want - low;
    SmallMultiple(p, q - turns);
  }

  lemma Places()
    ensures Place(2) == 0x1_0000 && Place(3) == 0x100_0000 && Place(4) == 0x1_0000_0000
  {
    assert Place(1) == 256;
  }

  // A value of w bytes, as an unsigned number of w bytes, and as one of 32 bits.
  function Wanted(v: int, w: nat): int {
    if v >= 0 then v else v + Place(w)
  }

  function Turns(v: int, w: nat): nat {
    if v >= 0 || w == 4 then 0 else if w == 3 then 255 else 65535
  }

  lemma WordTurns(v: int, w: nat)
    requires Width(w) && Fits(v, w)
    ensures Word32(v) == Wanted(v, w) + Place(w) * Turns(v, w) && 0 <= Wanted(v, w) < Place(w)
  {
    Places();
    if v < 0 {
      if w == 2 {
        assert Place(w) * Turns(v, w) == 0x1_0000_0000 - 0x1_0000;
      } else if w == 3 {
        assert Place(w) * Turns(v, w) == 0x1_0000_0000 - 0x100_0000;
      }
    }
  }

  lemma LowOfWord(v: int, w: nat)
    requires Width(w) && Fits(v, w)
    ensures Unsigned(LowBytes(Word32(v), w)) == Wanted(v, w)
  {
    var u := Word32(v);
    WordTurns(v, w);
    LowBytesSplit(u, w);
    UnsignedFits(LowBytes(u, w));
    Residue(u, Unsigned(LowBytes(u, w)), Shifted(u, w), Place(w), Wanted(v, w), Turns(v, w));
  }

  // Encoding and decoding are inverse to each other, both ways.
  lemma DecodeAfterEncode(v: int, w: nat)
    requires Width(w) && Fits(v, w)
    ensures Signed(Encoded(v, w)) == v
  {
    LowOfWord(v, w);
  }

  lemma EncodeAfterDecode(bytes: seq<Byte>)
    requires Width(|bytes|)
    ensures Fits(Signed(bytes), |bytes|) && Encoded(Signed(bytes), |bytes|) == bytes
  {
    Places();
    UnsignedFits(bytes);
    var again := Encoded(Signed(bytes), |bytes|);
    DecodeAfterEncode(Signed(bytes), |bytes|);
    UnsignedFits(again);
    UnsignedInjective(again, bytes);
  }

  // ------------------------------------------------------------------ mixing

  // A mono sample mixes a stereo frame: it decodes to the truncated average of the two
  // channels, which lies between them, and repeats their bytes when they agree.
  predicate Mixes(frame: seq<Byte>, out: seq<Byte>, w: nat) {
    && |frame| == 2 * w && |out| == w
    && var left, right, mono := Signed(frame[..w]), Signed(frame[w..]), Signed(out);
    && mono == Halved(left + right)
    && (left <= mono <= right || right <= mono <= left)
    && (frame[..w] == frame[w..] ==> out == frame[..w])
  }

  lemma AverageBetween(left: int, right: int)
    ensures left <= right ==> left <= Halved(left + right) <= right
    ensures right <= left ==> right <= Halved(left + right) <= left
    ensures Halved(left + left) == left
  {
  }

  lemma AverageFits(left: int, right: int, w: nat)
    requires Fits(left, w) && Fits(right, w)
    ensures Fits(Halved(left + right), w)
  {
    AverageBetween(left, right);
  }

  lemma EncodedAverageMixes(frame: seq<Byte>, w: nat)
    requires Width(w) && |frame| == 2 * w
    ensures Mixes(frame, Encoded(Halved(Signed(frame[..w]) + Signed(frame[w..])), w), w)
  {
    var left, right := Signed(frame[..w]), Signed(frame[w..]);
    EncodeAfterDecode(frame[..w]);
    EncodeAfterDecode(frame[w..]);
    AverageFits(left, right, w);
    AverageBetween(left, right);
    DecodeAfterEncode(Halved(left + right), w);
  }

  // i samples of w bytes.
  function Span(w: nat, i: nat): nat {
    if i == 0 then 0 else Span(w, i - 1) + w
  }

  lemma {:induction false} SpanIsProduct(w: nat, i: nat)
    ensures Span(w, i) == w * i
  {
    if i > 0 {
      SpanIsProduct(w, i - 1);
      assert w * i == w * (i - 1) + w;
    }
  }

  type Relation = (seq<Byte>, seq<Byte>) -> bool

  // Frame by frame, the first n frames of a stereo stream are related to the first n samples
  // of a mono stream.
  predicate Related(rel: Relation, stereo: seq<Byte>, mono: seq<Byte>, w: nat, n: nat)
    requires 2 * Span(w, n) <= |stereo| && Span(w, n) <= |mono|
    decreases n
  {
    n > 0 ==>
      && Related(rel, stereo, mono, w, n - 1)
      && rel(stereo[2 * Span(w, n - 1)..2 * Span(w, n)], mono[Span(w, n - 1)..Span(w, n)])
  }

  lemma {:induction false} RelatedAt(rel: Relation, stereo: seq<Byte>, mono: seq<Byte>, w: nat, n: nat, i: nat)
    requires 2 * Span(w, n) <= |stereo| && Span(w, n) <= |mono| && Related(rel, stereo, mono, w, n) && i < n
    ensures Span(w, i + 1) <= Span(w, n)
    ensures rel(stereo[2 * Span(w, i)..2 * Span(w, i + 1)], mono[Span(w, i)..Span(w, i + 1)])
    decreases n
  {
    if i < n - 1 {
      RelatedAt(rel, stereo, mono, w, n - 1, i);
    }
  }

  // Only the samples themselves matter.
  lemma {:induction false} RelatedFrame(rel: Relation, stereo: seq<Byte>, a: seq<Byte>, b: seq<Byte>, w: nat, n: nat)
    requires 2 * Span(w, n) <= |stereo| && Span(w, n) <= |a| && Span(w, n) <= |b| && a[..Span(w, n)] == b[..Span(w, n)]
    requires Related(rel, stereo, a, w, n)
    ensures Related(rel, stereo, b, w, n)
    decreases n
  {
    if n > 0 {
      var low, high := Span(w, n - 1), Span(w, n);
      PrefixSlices(a, b, low, high);
      RelatedFrame(rel, stereo, a, b, w, n - 1);
    }
  }

  lemma RelatedOneMore(rel: Relation, stereo: seq<Byte>, a: seq<Byte>, b: seq<Byte>, w: nat, n: nat)
    requires 2 * Span(w, n + 1) <= |stereo| && Span(w, n) <= |a| && Span(w, n + 1) <= |b| && a[..Span(w, n)] == b[..Span(w, n)]
    requires Related(rel, stereo, a, w, n)
    requires rel(stereo[2 * Span(w, n)..2 * Span(w, n + 1)], b[Span(w, n)..Span(w, n + 1)])
    ensures Related(rel, stereo, b, w, n + 1)
  {
    RelatedFrame(rel, stereo, a, b, w, n);
  }

  function Mixing(w: nat): Relation {
    (frame, out) => Mixes(frame, out, w)
  }

  // Sample i of the mono stream mixes frame i of the stereo stream.
  predicate MixesAt(stereo: seq<Byte>, mono: seq<Byte>, w: nat, i: nat) {
    var at := Span(w, i);
    2 * at + 2 * w <= |stereo| && at + w <= |mono| && Mixes(stereo[2 * at..2 * at + 2 * w], mono[at..at + w], w)
  }

  predicate MixesAll(stereo: seq<Byte>, mono: seq<Byte>, w: nat, n: nat) {
    forall i :: 0 <= i < n ==> MixesAt(stereo, mono, w, i)
  }

  lemma MixesFrom(stereo: seq<Byte>, mono: seq<Byte>, w: nat, i: nat, frame: seq<Byte>, out: seq<Byte>)
    requires 2 * Span(w, i) + 2 * w <= |stereo| && Span(w, i) + w <= |mono|
    requires stereo[2 * Span(w, i)..2 * Span(w, i) + 2 * w] == frame && mono[Span(w, i)..Span(w, i) + w] == out
    requires Mixes(frame, out, w)
    ensures MixesAt(stereo, mono, w, i)
  {
  }

  lemma RelatedMixes(stereo: seq<Byte>, mono: seq<Byte>, w: nat, n: nat)
    requires 2 * Span(w, n) <= |stereo| && Span(w, n) <= |mono| && Related(Mixing(w), stereo, mono, w, n)
    ensures MixesAll(stereo, mono, w, n)
  {
    forall i | 0 <= i < n ensures MixesAt(stereo, mono, w, i) {
      RelatedAt(Mixing(w), stereo, mono, w, n, i);
      MixesFrom(stereo, mono, w, i, stereo[2 * Span(w, i)..2 * Span(w, i + 1)], mono[Span(w, i)..Span(w, i + 1)]);
    }
  }

  lemma PrefixSlices(a: seq<Byte>, b: seq<Byte>, low: nat, high: nat)
    requires low <= high <= |a| && high <= |b| && a[..high] == b[..high]
    ensures a[..low] == b[..low] && a[low..high] == b[low..high]
  {
    assert a[..low] == a[..high][..low] && b[..low] == b[..high][..low];
    assert a[low..high] == a[..high][low..] && b[low..high] == b[..high][low..];
  }
}

module Downmix {
  import opened Arithmetic
  import opened Hci
  import opened Ring
  import opened DownmixSpec
  import opened ClockSpec
  import opened Pcm

  // Byte k of a wrapping buffer.
  method Fetch(source: seq<Byte>, k: nat) returns (b: Byte)
    requires source != []
    ensures b == source[Wrap(k, |source|)]
  {
    WrapIsModulo(k, |source|);
    b := source[k % |source|];
  }

  // One signed sample that may wrap anywhere. The bytes occupy disjoint bits of the word.
  method ReadSample(source: seq<Byte>, start: nat, w: nat) returns (sample: int)
    requires source != [] && Width(w)
    ensures sample == Signed(Wrapped(source, start, w))
  {
    var word: nat, weight: nat, sign: nat, j: nat := 0, 1, 0, 0;
    ghost var bytes := Wrapped(source, start, w);
    while j < w
      invariant 0 <= j <= w
      invariant word == Unsigned(bytes[..j]) && weight == Place(j) && sign == SignBit(j)
    {
      var b := Fetch(source, start + j);
      UnsignedAppend(bytes[..j], b);
      assert bytes[..j + 1] == bytes[..j] + [b];
      word := word + b * weight;
      sign, weight := 128 * weight, 256 * weight;
      j := j + 1;
    }
    assert bytes[..w] == bytes;
    sample := word;
    if word >= sign {
      sample := sample - weight;
    }
  }

  // The low w bytes of a 32-bit word, written at `at`.
  method WriteSample(mono: array<Byte>, at: nat, value: nat, w: nat)
    requires at + w <= mono.Length
    modifies mono
    ensures mono[at..at + w] == LowBytes(value, w)
    ensures mono[..at] == old(mono[..at])
  {
    var j, rest := 0, value;
    while j < w
      invariant 0 <= j <= w
      invariant Shifted(rest, 0) == Shifted(value, j)
      invariant forall k :: 0 <= k < j ==> mono[at + k] == LowBytes(value, w)[k]
      invariant mono[..at] == old(mono[..at])
    {
      LowBytesAt(value, w, j);
      mono[at + j] := rest % 256;
      ShiftedAgain(value, j);
      rest := rest / 256;
      j := j + 1;
    }
  }

  lemma {:induction false} ShiftedAgain(u: nat, j: nat)
    ensures Shifted(u, j + 1) == Shifted(u, j) / 256
    decreases j
  {
    if j > 0 {
      ShiftedAgain(u / 256, j - 1);
    }
  }

  // The truncated average of the frame that starts at `start`.
  method AverageAt(source: seq<Byte>, start: nat, silent: bool, w: nat) returns (value: int)
    requires Width(w) && (!silent ==> source != [])
    ensures var frame := Chunk(source, start, 2 * w, silent);
            value == Halved(Signed(frame[..w]) + Signed(frame[w..]))
  {
    var sum := 0;
    if silent {
      SilentFrame(Chunk(source, start, 2 * w, silent), w);
    } else {
      var left := ReadSample(source, start, w);
      var right := ReadSample(source, start + w, w);
      sum := left + right;
      LoudFrame(source, start, w);
    }
    value := Halved(sum);
  }

  // One frame, behind `at` finished bytes.
  method MixOne(source: seq<Byte>, start: nat, silent: bool, w: nat, mono: array<Byte>, at: nat, ghost rel: Relation)
    requires Width(w) && at + w <= mono.Length && (!silent ==> source != [])
    requires forall frame, out {:trigger Mixes(frame, out, w)} :: Mixes(frame, out, w) ==> rel(frame, out)
    modifies mono
    ensures mono[..at] == old(mono[..at])
    ensures rel(Chunk(source, start, 2 * w, silent), mono[at..at + w])
  {
    var value := AverageAt(source, start, silent, w);
    WriteSample(mono, at, Word32(value), w);
    EncodedAverageMixes(Chunk(source, start, 2 * w, silent), w);
  }

  // One more frame of the chunk `stereo`.
  method MixNext(source: seq<Byte>, offset: nat, silent: bool, w: nat, mono: array<Byte>, at: nat,
                 ghost rel: Relation, ghost stereo: seq<Byte>, ghost i: nat)
    requires Width(w) && (!silent ==> source != [])
    requires at == Span(w, i) && at + w <= mono.Length && 2 * at + 2 * w <= |stereo|
    requires stereo == Chunk(source, offset, |stereo|, silent) && Related(rel, stereo, mono[..], w, i)
    requires forall frame, out {:trigger Mixes(frame, out, w)} :: Mixes(frame, out, w) ==> rel(frame, out)
    modifies mono
    ensures Related(rel, stereo, mono[..], w, i + 1)
  {
    ghost var before := mono[..];
    MixOne(source, offset + 2 * at, silent, w, mono, at, rel);
    ghost var after := mono[..];
    ChunkSlice(source, offset, |stereo|, silent, 2 * at, 2 * at + 2 * w);
    assert after[at..at + w] == mono[at..at + w] && before[..at] == after[..at];
    RelatedOneMore(rel, stereo, before, after, w, i);
  }

  // Mix n frames of a wrapping stereo buffer, or silence, into the mono buffer.
  method MixFrames(source: seq<Byte>, offset: nat, n: nat, silent: bool, w: nat, mono: array<Byte>,
                   ghost rel: Relation, ghost stereo: seq<Byte>)
    requires Width(w) && Span(w, n) <= mono.Length && (!silent ==> source != [])
    requires |stereo| == 2 * Span(w, n) && stereo == Chunk(source, offset, |stereo|, silent)
    requires forall frame, out {:trigger Mixes(frame, out, w)} :: Mixes(frame, out, w) ==> rel(frame, out)
    modifies mono
    ensures Related(rel, stereo, mono[..], w, n)
  {
    var i, at := 0, 0;
    while i < n
      invariant 0 <= i <= n && at == Span(w, i) <= Span(w, n)
      invariant Related(rel, stereo, mono[..], w, i)
    {
      SpanGrows(w, i + 1, n);
      MixNext(source, offset, silent, w, mono, at, rel, stereo, i);
      at := at + w;
      i := i + 1;
    }
  }

  method Mix(source: seq<Byte>, offset: nat, n: nat, silent: bool, w: nat, mono: array<Byte>)
    requires Width(w) && Span(w, n) <= mono.Length
    requires !silent ==> source != []
    modifies mono
    ensures MixesAll(Chunk(source, offset, 2 * Span(w, n), silent), mono[..], w, n)
  {
    MixFrames(source, offset, n, silent, w, mono, Mixing(w), Chunk(source, offset, 2 * Span(w, n), silent));
    RelatedMixes(Chunk(source, offset, 2 * Span(w, n), silent), mono[..], w, n);
  }

  lemma ChunkSlice(source: seq<Byte>, offset: nat, size: nat, silent: bool, low: nat, high: nat)
    requires (!silent ==> source != []) && low <= high <= size
    ensures Chunk(source, offset, size, silent)[low..high] == Chunk(source, offset + low, high - low, silent)
  {
  }

  lemma {:induction false} SpanGrows(w: nat, i: nat, n: nat)
    requires i <= n
    ensures Span(w, i) <= Span(w, n)
    decreases n
  {
    if i < n {
      SpanGrows(w, i, n - 1);
    }
  }

  lemma LoudFrame(source: seq<Byte>, start: nat, w: nat)
    requires source != []
    ensures var frame := Wrapped(source, start, 2 * w);
            frame[..w] == Wrapped(source, start, w) && frame[w..] == Wrapped(source, start + w, w)
  {
  }

  lemma SilentFrame(frame: seq<Byte>, w: nat)
    requires Width(w) && frame == Zeros(2 * w)
    ensures Signed(frame[..w]) == 0 && Signed(frame[w..]) == 0
  {
    assert frame[..w] == Zeros(w) && frame[w..] == Zeros(w);
    ZerosAreSilent(w);
  }

  lemma {:induction false} ZerosAreSilent(w: nat)
    ensures Unsigned(Zeros(w)) == 0 && (w > 0 ==> Signed(Zeros(w)) == 0)
  {
    if w > 0 {
      assert Zeros(w)[1..] == Zeros(w - 1);
      ZerosAreSilent(w - 1);
      assert Place(w) == 256 * Place(w - 1);
      PlacePositive(w - 1);
    }
  }

  lemma {:induction false} PlacePositive(j: nat)
    ensures Place(j) > 0
  {
    if j > 0 {
      PlacePositive(j - 1);
    }
  }

  // ------------------------------------------------------------------ a graph quantum

  // A size in whole stereo frames.
  lemma WholeSpan(size: nat, w: nat)
    requires w > 0 && size % (2 * w) == 0
    ensures size == 2 * Span(w, size / (2 * w))
  {
    var n := size / (2 * w);
    SpanIsProduct(w, n);
    Division(size, 2 * w);
    TwiceProduct(w, n);
  }

  lemma Division(size: nat, frame: nat)
    requires frame > 0
    ensures size == frame * (size / frame) + size % frame
  {
  }

  lemma TwiceProduct(w: nat, n: nat)
    ensures 2 * w * n == 2 * (w * n)
  {
  }

  lemma SilentMix(w: nat)
    requires Width(w)
    ensures Mixes(Zeros(2 * w), Zeros(w), w)
  {
    assert Zeros(2 * w)[..w] == Zeros(2 * w)[w..] == Zeros(w);
    ZerosAreSilent(w);
  }

  lemma ZerosSlice(n: nat, low: nat, high: nat)
    requires low <= high <= n
    ensures Zeros(n)[low..high] == Zeros(high - low)
  {
  }

  lemma SilenceMixesAt(stereo: seq<Byte>, mono: seq<Byte>, w: nat, i: nat)
    requires Width(w) && stereo == Zeros(|stereo|) && mono == Zeros(|mono|)
    requires 2 * Span(w, i) + 2 * w <= |stereo| && Span(w, i) + w <= |mono|
    ensures MixesAt(stereo, mono, w, i)
  {
    SilentMix(w);
    ZerosSlice(|stereo|, 2 * Span(w, i), 2 * Span(w, i) + 2 * w);
    ZerosSlice(|mono|, Span(w, i), Span(w, i) + w);
    MixesFrom(stereo, mono, w, i, Zeros(2 * w), Zeros(w));
  }

  lemma SilenceMixes(stereo: seq<Byte>, mono: seq<Byte>, w: nat, n: nat)
    requires Width(w) && stereo == Zeros(2 * Span(w, n)) && mono == Zeros(Span(w, n))
    ensures MixesAll(stereo, mono, w, n)
  {
    forall i | 0 <= i < n ensures MixesAt(stereo, mono, w, i) {
      SpanGrows(w, i + 1, n);
      SilenceMixesAt(stereo, mono, w, i);
    }
  }

  lemma {:induction false} MixesPrefix(stereo: seq<Byte>, mono: seq<Byte>, w: nat, n: nat)
    requires Span(w, n) <= |mono| && MixesAll(stereo, mono, w, n)
    ensures MixesAll(stereo, mono[..Span(w, n)], w, n)
  {
    forall i | 0 <= i < n ensures MixesAt(stereo, mono[..Span(w, n)], w, i) {
      SpanGrows(w, i + 1, n);
      var at := Span(w, i);
      assert MixesAt(stereo, mono, w, i);
      assert mono[..Span(w, n)][at..at + w] == mono[at..at + w];
    }
  }

  // The room that a quantum finds in its ring.
  ghost function Room(p: Pcm): int
    reads p, p.voice, p.playback
  {
    p.queueLimit - if p.hfp then p.voice.queued else p.playback.queued
  }

  // A stereo quantum for a mono transport: the rings receive the mix of the whole chunk, or
  // nothing for lack of room or, with music, because the transport is too far behind. A
  // chunk that ends inside a frame fails the bridge.
  method ProcessStereo(p: Pcm, source: seq<Byte>, chunkOffset: nat, chunkSize: nat, silent: bool, now: Ns)
    returns (taken: bool, ghost n: nat, ghost mixed: seq<Byte>)
    requires p.Valid() && p.format.channels == 1
    modifies p`failed, p`quanta, p`busy, p.transport`audioWritten, p`sent, p`enqueued, p.playback, p.playback.data, p.voice`queued, p.voice.data
    ensures p.Valid() && p.quanta == old(p.quanta) + 1 && (old(p.failed) ==> p.failed && !taken)
    ensures taken ==>
              && source != [] && Min(chunkSize, |source|) == 2 * Span(p.format.bits / 8, n)
              && MixesAll(Chunk(source, chunkOffset % |source|, Min(chunkSize, |source|), silent), mixed, p.format.bits / 8, n)
              && if p.hfp then p.voice.Contents() == old(p.voice.Contents()) + mixed && p.enqueued == old(p.enqueued)
                 else p.enqueued == old(p.enqueued) + mixed
    ensures !taken ==> p.enqueued == old(p.enqueued) && p.voice.Contents() == old(p.voice.Contents())
    ensures source != [] && Min(chunkSize, |source|) % (2 * (p.format.bits / 8)) != 0 ==> p.failed
    ensures !taken && !p.failed && source != [] ==>
              (!p.hfp && p.transport.position.valid && 10 * old(p.Backlog()) > Speed(p.format)) || Min(chunkSize, |source|) / 2 > Room(p)
    ensures taken && !p.hfp && p.transport.position.valid ==> 10 * old(p.Backlog()) <= 3 * Speed(p.format)
  {
    taken, n, mixed := false, 0, [];
    if p.failed {
      p.quanta := p.quanta + 1;
      return;
    }
    if source == [] {
      p.failed, p.quanta := chunkSize != 0, p.quanta + 1;
      return;
    }
    var offset, size, w := chunkOffset % |source|, Min(chunkSize, |source|), p.format.bits / 8;
    if size % (2 * w) != 0 {
      p.failed, p.quanta := true, p.quanta + 1;
      return;
    }
    WholeSpan(size, w);
    n := size / (2 * w);
    taken, mixed := QueueMix(p, source, offset, size / (2 * w), silent, now);
  }

  // Whole stereo frames, mixed and queued.
  method QueueMix(p: Pcm, source: seq<Byte>, offset: nat, n: nat, silent: bool, now: Ns)
    returns (taken: bool, ghost mixed: seq<Byte>)
    requires p.Valid() && p.format.channels == 1 && !p.failed && source != []
    modifies p`failed, p`quanta, p`busy, p.transport`audioWritten, p`sent, p`enqueued, p.playback, p.playback.data, p.voice`queued, p.voice.data
    ensures p.Valid() && p.quanta == old(p.quanta) + 1
    ensures taken ==>
              && MixesAll(Chunk(source, offset, 2 * Span(p.format.bits / 8, n), silent), mixed, p.format.bits / 8, n)
              && if p.hfp then p.voice.Contents() == old(p.voice.Contents()) + mixed && p.enqueued == old(p.enqueued)
                 else p.enqueued == old(p.enqueued) + mixed
    ensures !taken ==> p.enqueued == old(p.enqueued) && p.voice.Contents() == old(p.voice.Contents())
    ensures !taken && !p.failed ==>
              (!p.hfp && p.transport.position.valid && 10 * old(p.Backlog()) > Speed(p.format)) || Span(p.format.bits / 8, n) > Room(p)
    ensures taken && !p.hfp && p.transport.position.valid ==> 10 * old(p.Backlog()) <= 3 * Speed(p.format)
  {
    var w := p.format.bits / 8;
    var size := Span(w, n);
    if size > QUEUE_SIZE {
      p.quanta := p.quanta + 1;
      return false, [];
    }
    WholeSamples(w, n);
    var mono := MixBuffer(source, offset, n, silent, w);
    taken := QueueBuffer(p, mono, size, silent, now);
    mixed := Chunk(mono, 0, size, silent);
  }

  method QueueBuffer(p: Pcm, mono: seq<Byte>, size: nat, silent: bool, now: Ns) returns (taken: bool)
    requires p.Valid() && !p.failed && |mono| == QUEUE_SIZE && size <= QUEUE_SIZE && size % FrameBytes(p.format) == 0
    modifies p`failed, p`quanta, p`busy, p.transport`audioWritten, p`sent, p`enqueued, p.playback, p.playback.data, p.voice`queued, p.voice.data
    ensures p.Valid() && p.quanta == old(p.quanta) + 1
    ensures taken ==>
              if p.hfp then p.voice.Contents() == old(p.voice.Contents()) + Chunk(mono, 0, size, silent) && p.enqueued == old(p.enqueued)
              else p.enqueued == old(p.enqueued) + Chunk(mono, 0, size, silent)
    ensures !taken ==> p.enqueued == old(p.enqueued) && p.voice.Contents() == old(p.voice.Contents())
    ensures !taken && !p.failed ==>
              (!p.hfp && p.transport.position.valid && 10 * old(p.Backlog()) > Speed(p.format)) || size > Room(p)
    ensures taken && !p.hfp && p.transport.position.valid ==> 10 * old(p.Backlog()) <= 3 * Speed(p.format)
  {
    taken := p.Process(mono, 0, size, silent, now);
  }

  lemma WholeSamples(w: nat, n: nat)
    requires w > 0
    ensures Span(w, n) % w == 0
  {
    SpanIsProduct(w, n);
    MultipleIsZero(w, n);
  }

  // The mono buffer, as the rings read it.
  method MixBuffer(source: seq<Byte>, offset: nat, n: nat, silent: bool, w: nat) returns (buffer: seq<Byte>)
    requires Width(w) && Span(w, n) <= QUEUE_SIZE && (!silent ==> source != [])
    ensures |buffer| == QUEUE_SIZE
    ensures MixesAll(Chunk(source, offset, 2 * Span(w, n), silent), Chunk(buffer, 0, Span(w, n), silent), w, n)
  {
    var mono := new Byte[QUEUE_SIZE](_ => 0);
    Mix(source, offset, n, silent, w, mono);
    buffer := mono[..];
    if silent {
      SilenceMixes(Zeros(2 * Span(w, n)), Zeros(Span(w, n)), w, n);
    } else {
      MixesPrefix(Chunk(source, offset, 2 * Span(w, n), silent), buffer, w, n);
      WholeBuffer(buffer, Span(w, n));
    }
  }

  lemma WholeBuffer(mono: seq<Byte>, n: nat)
    requires mono != [] && n <= |mono|
    ensures Wrapped(mono, 0, n) == mono[..n]
  {
    forall i | 0 <= i < n ensures Wrapped(mono, 0, n)[i] == mono[i] {
      assert Wrap(0 + i, |mono|) == i;
    }
  }
}
