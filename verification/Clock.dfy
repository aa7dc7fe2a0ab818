// Clock recovery of the audio bridge over the reals (pw-floss/src/pw-floss.c): the bounded
// PI controller, the accepted transport positions and the level derived from them.
module ClockSpec {
  const TARGET := 0.030
  const LIMIT := 0.01
  const WORD: nat := 0x1_0000_0000_0000_0000

  // A 64-bit nanosecond clock; differences wrap.
  type Ns = x: nat | x < WORD

  function Since(now: Ns, earlier: Ns): Ns {
    if now >= earlier then now - earlier else now + WORD - earlier
  }

  datatype Controller = Controller(integral: real, filtered: real, update: Ns, ready: bool)

  const RESET := Controller(0.0, 0.0, 0, false)

  function Clamp(value: real, low: real, high: real): (r: real)
    requires low <= high
    ensures low <= r <= high
    ensures (r > value ==> r == low) && (r < value ==> r == high)
  {
    if value < low then low else if value > high then high else value
  }

  // Seconds since the last update, at most a quarter.
  function Elapsed(now: Ns, update: Ns): (dt: real)
    ensures 0.0 <= dt <= 0.25
  {
    Clamp(Since(now, update) as real / 1000000000.0, 0.0, 0.25)
  }

  function Started(c: Controller, now: Ns): Controller {
    if c.ready then c else Controller(0.0, 0.0, now, true)
  }

  // One-second low pass.
  function Filtered(filtered: real, error: real, dt: real): real
    requires dt >= 0.0
  {
    filtered + dt / (1.0 + dt) * (error - filtered)
  }

  function Candidate(integral: real, filtered: real, dt: real): (r: real)
    ensures -LIMIT <= r <= LIMIT
  {
    Clamp(integral + 0.02 * filtered * dt, -LIMIT, LIMIT)
  }

  // Integrate only when that does not push further into a clamp.
  predicate Integrates(filtered: real, candidate: real) {
    var correction := 0.20 * filtered + candidate;
    (correction < LIMIT || filtered < 0.0) && (correction > -LIMIT || filtered > 0.0)
  }

  function Integrated(integral: real, filtered: real, dt: real): real {
    var candidate := Candidate(integral, filtered, dt);
    if Integrates(filtered, candidate) then candidate else integral
  }

  // A negative level means that none is known.
  function Update(c: Controller, level: real, now: Ns): Controller {
    var s := Started(c, now);
    if level < 0.0 then s.(update := now)
    else
      var dt := Elapsed(now, s.update);
      var filtered := Filtered(s.filtered, TARGET - level, dt);
      Controller(Integrated(s.integral, filtered, dt), filtered, now, true)
  }

  function Rate(c: Controller, level: real): (r: real)
    ensures 1.0 - LIMIT <= r <= 1.0 + LIMIT
  {
    1.0 + if level < 0.0 then 0.0 else Clamp(0.20 * c.filtered + c.integral, -LIMIT, LIMIT)
  }

  // ------------------------------------------------------------------ one update

  lemma Product(x: real, y: real)
    requires x >= 0.0 && y >= 0.0
    ensures x * y >= 0.0
  {
  }

  lemma Quotient(x: real, y: real)
    requires x >= 0.0 && y > 0.0
    ensures x / y >= 0.0
  {
  }

  // One backward Euler step of the one-second low pass: the filter moves towards the error
  // and never past it.
  lemma FilterIsLowPass(filtered: real, error: real, dt: real)
    requires dt >= 0.0
    ensures Filtered(filtered, error, dt) - filtered == dt * (error - Filtered(filtered, error, dt))
    ensures 0.0 <= dt / (1.0 + dt) <= 1.0
  {
    var g, d := dt / (1.0 + dt), error - filtered;
    assert g * (1.0 + dt) == dt;
    Quotient(dt, 1.0 + dt);
    Quotient(1.0, 1.0 + dt);
    assert g + 1.0 / (1.0 + dt) == 1.0;
    assert g == dt - g * dt;
    Distribute(g, dt, d);
  }

  lemma Distribute(g: real, dt: real, d: real)
    requires g == dt - g * dt
    ensures g * d == dt * (d - g * d)
  {
    assert g * d == (dt - g * dt) * d == dt * d - g * dt * d;
  }

  lemma FilterIsConvex(filtered: real, error: real, dt: real, low: real, high: real)
    requires dt >= 0.0 && low <= filtered <= high && low <= error <= high
    ensures low <= Filtered(filtered, error, dt) <= high
  {
    FilterIsLowPass(filtered, error, dt);
    Between(dt / (1.0 + dt), error - filtered, low - filtered, high - filtered);
  }

  lemma Between(g: real, x: real, low: real, high: real)
    requires 0.0 <= g <= 1.0 && low <= x <= high && low <= 0.0 <= high
    ensures low <= g * x <= high
  {
    if x >= 0.0 {
      Product(g, x);
      Product(1.0 - g, x);
    } else {
      Product(g, -x);
      Product(1.0 - g, -x);
    }
  }

  predicate Bounded(c: Controller) {
    -LIMIT <= c.integral <= LIMIT
  }

  // Anti-windup: when proportional and integral part together reach a clamp, the integral
  // does not move towards that clamp; while they do not, it takes its new value.
  lemma NoWindup(c: Controller, level: real, now: Ns)
    requires Bounded(c) && level >= 0.0
    ensures var s, after := Started(c, now), Update(c, level, now);
            var candidate := Candidate(s.integral, after.filtered, Elapsed(now, s.update));
            && (0.20 * after.filtered + candidate >= LIMIT ==> after.integral <= s.integral)
            && (0.20 * after.filtered + candidate <= -LIMIT ==> after.integral >= s.integral)
            && (-LIMIT < 0.20 * after.filtered + candidate < LIMIT ==> after.integral == candidate)
            && (after.integral == s.integral || after.integral == candidate)
  {
    var s, after := Started(c, now), Update(c, level, now);
    var dt := Elapsed(now, s.update);
    SignOf(after.filtered, dt);
  }

  lemma SignOf(x: real, dt: real)
    requires dt >= 0.0
    ensures (x < 0.0 ==> 0.02 * x * dt <= 0.0) && (x > 0.0 ==> 0.02 * x * dt >= 0.0) && (x == 0.0 ==> 0.02 * x * dt == 0.0)
  {
    if x < 0.0 {
      assert x * dt <= 0.0;
    } else {
      assert x * dt >= 0.0;
    }
    assert 0.02 * x * dt == 0.02 * (x * dt);
  }

  // ------------------------------------------------------------------ whole runs

  datatype Sample = Sample(level: real, now: Ns) | Restart

  function Step(c: Controller, s: Sample): Controller {
    match s
    case Sample(level, now) => Update(c, level, now)
    case Restart => RESET
  }

  function Run(samples: seq<Sample>): Controller {
    if samples == [] then RESET
    else Step(Run(samples[..|samples| - 1]), samples[|samples| - 1])
  }

  predicate ErrorsWithin(samples: seq<Sample>, low: real, high: real) {
    forall i :: 0 <= i < |samples| && samples[i].Sample? && samples[i].level >= 0.0 ==> low <= TARGET - samples[i].level <= high
  }

  // Over any run the integral and the rate stay in their bands, and the filtered error
  // stays in the hull of zero and the errors that were seen.
  lemma {:induction false} RunsStayBounded(samples: seq<Sample>, low: real, high: real)
    requires low <= 0.0 <= high && ErrorsWithin(samples, low, high)
    ensures Bounded(Run(samples)) && low <= Run(samples).filtered <= high
    ensures forall level: real :: 0.99 <= Rate(Run(samples), level) <= 1.01
    decreases |samples|
  {
    if samples != [] {
      var init, last := samples[..|samples| - 1], samples[|samples| - 1];
      assert ErrorsWithin(init, low, high);
      RunsStayBounded(init, low, high);
      if last.Sample? && last.level >= 0.0 {
        var s := Started(Run(init), last.now);
        FilterIsConvex(s.filtered, TARGET - last.level, Elapsed(last.now, s.update), low, high);
      }
    }
  }

  predicate Only(samples: seq<Sample>, full: bool) {
    forall i :: 0 <= i < |samples| && samples[i].Sample? && samples[i].level >= 0.0 ==>
                  if full then samples[i].level >= TARGET else samples[i].level <= TARGET
  }

  predicate Sided(c: Controller, full: bool) {
    if full then c.integral <= 0.0 && c.filtered <= 0.0 else c.integral >= 0.0 && c.filtered >= 0.0
  }

  lemma IntegralKeepsTheSide(integral: real, filtered: real, dt: real, full: bool)
    requires dt >= 0.0 && if full then integral <= 0.0 && filtered <= 0.0 else integral >= 0.0 && filtered >= 0.0
    ensures if full then Integrated(integral, filtered, dt) <= 0.0 else Integrated(integral, filtered, dt) >= 0.0
  {
    SignOf(filtered, dt);
  }

  lemma FilterKeepsTheSide(filtered: real, error: real, dt: real, full: bool)
    requires dt >= 0.0 && if full then filtered <= 0.0 && error <= 0.0 else filtered >= 0.0 && error >= 0.0
    ensures if full then Filtered(filtered, error, dt) <= 0.0 else Filtered(filtered, error, dt) >= 0.0
  {
    if full {
      FilterIsConvex(filtered, error, dt, filtered + error, 0.0);
    } else {
      FilterIsConvex(filtered, error, dt, 0.0, filtered + error);
    }
  }

  lemma UpdateKeepsTheSide(c: Controller, level: real, now: Ns, full: bool)
    requires Sided(c, full) && level >= 0.0 && if full then level >= TARGET else level <= TARGET
    ensures Sided(Update(c, level, now), full)
  {
    var s, error := Started(c, now), TARGET - level;
    var dt := Elapsed(now, s.update);
    FilterKeepsTheSide(s.filtered, error, dt, full);
    IntegralKeepsTheSide(s.integral, Filtered(s.filtered, error, dt), dt, full);
  }

  // While every level seen was at or above the target the rate never exceeds one, and while
  // every level was at or below it the rate never falls under one.
  lemma {:induction false} RateFollowsTheLevel(samples: seq<Sample>, full: bool)
    requires Only(samples, full)
    ensures Sided(Run(samples), full)
    ensures forall level: real :: if full then Rate(Run(samples), level) <= 1.0 else Rate(Run(samples), level) >= 1.0
    decreases |samples|
  {
    if samples != [] {
      var init, last := samples[..|samples| - 1], samples[|samples| - 1];
      assert Only(init, full);
      RateFollowsTheLevel(init, full);
      if last.Sample? && last.level >= 0.0 {
        UpdateKeepsTheSide(Run(init), last.level, last.now, full);
      }
    }
  }

  // The difference between two readings of a clock that wraps.
  lemma SinceIsElapsed(now: Ns, earlier: Ns)
    ensures (earlier + Since(now, earlier)) % WORD == now
    ensures now >= earlier ==> Since(now, earlier) == now - earlier
  {
    if now < earlier {
      assert earlier + Since(now, earlier) == now + WORD;
    }
  }

  // Up to a quarter of a second the controller knows how much time passed.
  lemma ElapsedIsInSeconds(now: Ns, update: Ns)
    requires update <= now
    ensures Elapsed(now, update) == if now - update <= 250000000 then (now - update) as real / 1000000000.0 else 0.25
  {
  }

  // The correction is a fifth of the filtered error plus the integral, and a bound when that
  // is out of the band.
  lemma CorrectionIsProportionalPlusIntegral(c: Controller, level: real)
    requires level >= 0.0
    ensures var p := 0.2 * c.filtered + c.integral;
            Rate(c, level) == if p > 0.01 then 1.01 else if p < -0.01 then 0.99 else 1.0 + p
  {
  }

  // The integral grows by two hundredths of the filtered error a second, within its band.
  lemma IntegralGrows(c: Controller, level: real, now: Ns)
    requires c.ready && level >= 0.0
    ensures var after, dt := Update(c, level, now), Elapsed(now, c.update);
            var moved := c.integral + 0.02 * after.filtered * dt;
            -0.01 < 0.2 * after.filtered + moved < 0.01 && -0.01 <= moved <= 0.01 ==> after.integral == moved
  {
  }

  // Every update is remembered as the last; the first one after a restart corrects nothing.
  lemma FirstUpdateOnlyStarts(c: Controller, level: real, now: Ns)
    ensures Update(c, level, now).ready && Update(c, level, now).update == now
    ensures !c.ready ==> Update(c, level, now) == Controller(0.0, 0.0, now, true) && Rate(Update(c, level, now), level) == 1.0
  {
  }

  // Nothing is corrected, nor learned, without a level.
  lemma NoLevelNoCorrection(c: Controller, level: real, now: Ns)
    requires level < 0.0
    ensures Rate(Update(c, level, now), level) == 1.0
    ensures var after := Update(c, level, now);
            after.update == now && after.ready && (c.ready ==> after.integral == c.integral && after.filtered == c.filtered)
  {
  }

  // A level on the other side of the target than nothing moves the rate, strictly.
  lemma LevelMovesTheRate(c: Controller, level: real, now: Ns, full: bool)
    requires c.ready && Sided(c, full) && level >= 0.0 && Elapsed(now, c.update) > 0.0
    requires if full then level > 0.03 else level < 0.03
    ensures if full then Rate(Update(c, level, now), level) < 1.0 else Rate(Update(c, level, now), level) > 1.0
  {
    var dt, error := Elapsed(now, c.update), TARGET - level;
    FilterMoves(c.filtered, error, dt, full);
    UpdateKeepsTheSide(c, level, now, full);
  }

  lemma FilterMoves(filtered: real, error: real, dt: real, full: bool)
    requires dt > 0.0 && if full then filtered <= 0.0 && error < 0.0 else filtered >= 0.0 && error > 0.0
    ensures if full then Filtered(filtered, error, dt) < 0.0 else Filtered(filtered, error, dt) > 0.0
  {
    var g := dt / (1.0 + dt);
    FilterIsLowPass(filtered, error, dt);
    Gain(dt);
    Weighted(g, filtered, error, full);
    assert Filtered(filtered, error, dt) == filtered + g * (error - filtered);
  }

  lemma Gain(dt: real)
    requires dt > 0.0
    ensures dt / (1.0 + dt) > 0.0
  {
    var g := dt / (1.0 + dt);
    assert g * (1.0 + dt) == dt;
    if g <= 0.0 {
      Product(-g, 1.0 + dt);
    }
  }

  lemma Weighted(g: real, x: real, y: real, full: bool)
    requires 0.0 < g <= 1.0 && if full then x <= 0.0 && y < 0.0 else x >= 0.0 && y > 0.0
    ensures if full then x + g * (y - x) < 0.0 else x + g * (y - x) > 0.0
  {
    assert x + g * (y - x) == (1.0 - g) * x + g * y;
    if full {
      Product(1.0 - g, -x);
      assert g * y < 0.0;
    } else {
      Product(1.0 - g, x);
      assert g * y > 0.0;
    }
  }

  // Over a run: when no level was on the other side of the target, one off the target moves
  // the rate the right way, as soon as time passes.
  lemma RateReacts(samples: seq<Sample>, level: real, now: Ns, full: bool)
    requires Only(samples, full) && Run(samples).ready && Elapsed(now, Run(samples).update) > 0.0
    requires if full then level > 0.03 else 0.0 <= level < 0.03
    ensures var c := Run(samples + [Sample(level, now)]);
            if full then Rate(c, level) < 1.0 else Rate(c, level) > 1.0
  {
    RateFollowsTheLevel(samples, full);
    LevelMovesTheRate(Run(samples), level, now, full);
    var longer := samples + [Sample(level, now)];
    assert longer[..|longer| - 1] == samples;
  }

  // ------------------------------------------------------------------ transport positions

  const TIMEOUT: nat := 2000000000

  datatype Report = Report(complete: bool, valid: bool, bytes: nat, sec: int, nsec: int, remote: nat)

  datatype Position = Position(valid: bool, bytes: nat, stamp: Ns, received: Ns, progress: Ns, remote: nat)

  function Stamp(r: Report): int {
    r.sec * 1000000000 + r.nsec
  }

  predicate Acceptable(p: Position, r: Report, written: nat, now: Ns) {
    && r.complete && r.valid && r.sec >= 0 && 0 <= r.nsec < 1000000000
    && Stamp(r) < WORD && r.bytes <= written
    && (p.valid ==> r.bytes >= p.bytes)
    && Stamp(r) <= now
    && (p.valid ==> Stamp(r) >= p.stamp)
  }

  // Seconds of sound that the transport may have consumed since its last position.
  function PlayedSince(p: Position, now: Ns): (seconds: real)
    ensures 0.0 <= seconds <= 0.2
  {
    var elapsed := if p.stamp != 0 && now >= p.stamp then now - p.stamp else 0;
    (if elapsed < 200000000 then elapsed else 200000000) as real / 1000000000.0
  }

  // What is left of `total` bytes when some are acknowledged and some more are played.
  function Left(total: real, acknowledged: real, ahead: real): real {
    if acknowledged + ahead > total then 0.0 else total - (acknowledged + ahead)
  }

  // Bytes that wait to be consumed at `speed` bytes per second: queued here, or submitted
  // and not played yet. The level is the time that takes.
  function Waiting(p: Position, queued: nat, written: nat, now: Ns, speed: nat): real {
    queued as real + Left(written as real, p.bytes as real, PlayedSince(p, now) * speed as real)
  }

  // Consumption is extrapolated at the nominal speed, for at most 200 ms after a stamp, and
  // never beyond what was submitted.
  lemma ExtrapolatesAtSpeed(p: Position, queued: nat, written: nat, now: Ns, speed: nat)
    requires p.bytes <= written
    ensures var late := if p.stamp == 0 || now < p.stamp then 0 else if now - p.stamp > 200000000 then 200000000 else now - p.stamp;
            var consumed := p.bytes as real + late as real / 1000000000.0 * speed as real;
            Waiting(p, queued, written, now, speed) ==
            queued as real + if consumed > written as real then 0.0 else written as real - consumed
  {
  }

  // A position is stale exactly after two seconds without a report, or without progress on
  // submitted bytes while the stream runs.
  lemma StaleExactly(p: Position, written: nat, now: Ns, running: bool)
    requires p.received <= now && p.progress <= now
    ensures Stale(p, written, now, running) <==>
            now - p.received > 2000000000 || (running && written > p.bytes && now - p.progress > 2000000000)
  {
  }

  // A report of a transport that only counts up is accepted; one that is incomplete, runs
  // backwards, is ahead of what was submitted or of the clock is not.
  lemma ReportsAreAcceptedExactly(p: Position, bytes: nat, sec: nat, nsec: nat, remote: nat, written: nat, now: Ns)
    requires nsec < 1000000000
    ensures var time := sec * 1000000000 + nsec;
            Acceptable(p, Report(true, true, bytes, sec, nsec, remote), written, now) <==>
            bytes <= written && time <= now && (p.valid ==> p.bytes <= bytes && p.stamp <= time)
    ensures forall r: Report :: !r.complete || !r.valid || r.sec < 0 || r.nsec < 0 || r.nsec >= 1000000000 ==> !Acceptable(p, r, written, now)
  {
  }

  lemma ScaledByTen(a: nat, b: nat)
    ensures 10.0 * a as real > b as real ==> 10 * a > b
    ensures 10.0 * a as real <= 3.0 * b as real ==> 10 * a <= 3 * b
  {
    assert (10 * a) as real == 10.0 * a as real && (3 * b) as real == 3.0 * b as real;
  }

  lemma AboveATenth(level: real, s: real, product: real)
    requires s > 0.0 && product == level * s
    ensures if level > 0.1 then 10.0 * product > s else 10.0 * product <= s
  {
    if level > 0.1 {
      Product(level - 0.1, s);
      assert product - 0.1 * s == (level - 0.1) * s;
    } else {
      Product(0.1 - level, s);
      assert 0.1 * s - product == (0.1 - level) * s;
    }
  }

  lemma TenthOfASecond(level: real, product: real, backlog: nat, speed: nat)
    requires speed > 0 && product == level * speed as real
    requires backlog as real - 0.2 * speed as real <= product <= backlog as real
    ensures if level > 0.1 then 10 * backlog > speed else 10 * backlog <= 3 * speed
  {
    AboveATenth(level, speed as real, product);
    ScaledByTen(backlog, speed);
  }

  // No position for two seconds, or none that moves while submitted bytes are outstanding.
  predicate Stale(p: Position, written: nat, now: Ns, running: bool) {
    || Since(now, p.received) > TIMEOUT
    || (running && written > p.bytes && Since(now, p.progress) > TIMEOUT)
  }

  lemma Share(seconds: real, s: real)
    requires 0.0 <= seconds <= 0.2 && s > 0.0
    ensures 0.0 <= seconds * s <= 0.2 * s
  {
    Product(seconds, s);
    Product(0.2 - seconds, s);
    assert 0.2 * s - seconds * s == (0.2 - seconds) * s;
  }

  lemma Divided(x: real, s: real)
    requires s > 0.0
    ensures x / s * s == x
  {
  }

  lemma LeftIsBracketed(queued: nat, written: nat, acknowledged: nat, ahead: real, most: real)
    requires acknowledged <= written && 0.0 <= ahead <= most
    ensures var left := Left(written as real, acknowledged as real, ahead);
            var outstanding := (queued + written - acknowledged) as real;
            queued as real <= queued as real + left <= outstanding && queued as real + left >= outstanding - most
  {
    assert (queued + written - acknowledged) as real == queued as real + written as real - acknowledged as real;
  }

  // It lies between what is still queued here and that plus everything submitted that the
  // transport has not acknowledged, of which at most 200 ms are taken as played.
  lemma WaitingIsBracketed(p: Position, queued: nat, written: nat, now: Ns, speed: nat)
    requires speed > 0 && p.bytes <= written
    ensures queued as real <= Waiting(p, queued, written, now, speed) <= (queued + written - p.bytes) as real
    ensures Waiting(p, queued, written, now, speed) >= (queued + written - p.bytes) as real - 0.2 * speed as real
  {
    Share(PlayedSince(p, now), speed as real);
    LeftIsBracketed(queued, written, p.bytes, PlayedSince(p, now) * speed as real, 0.2 * speed as real);
  }
}

module Clock {
  import opened Wrappers
  import opened ClockSpec

  class ClockController {
    var integral: real
    var filteredError: real
    var updateNs: Ns
    var ready: bool

    ghost function View(): Controller
      reads this
    {
      Controller(integral, filteredError, updateNs, ready)
    }

    constructor ()
      ensures View() == RESET
    {
      integral, filteredError, updateNs, ready := 0.0, 0.0, 0, false;
    }

    method AdaptRate(level: real, now: Ns) returns (rate: real)
      modifies this
      ensures View() == Update(old(View()), level, now) && rate == Rate(View(), level)
    {
      if !ready {
        ready := true;
        updateNs := now;
        integral, filteredError := 0.0, 0.0;
      }
      var dt := Elapsed(now, updateNs);
      updateNs := now;
      if level < 0.0 {
        return 1.0;
      }
      var error := TARGET - level;
      filteredError := Filtered(filteredError, error, dt);
      var candidate := Candidate(integral, filteredError, dt);
      var correction := 0.20 * filteredError + candidate;
      if (correction < LIMIT || filteredError < 0.0) && (correction > -LIMIT || filteredError > 0.0) {
        integral := candidate;
      }
      correction := Clamp(0.20 * filteredError + integral, -LIMIT, LIMIT);
      return 1.0 + correction;
    }
  }

  // The transport counter of one music session.
  class TransportPosition {
    var position: Position
    var audioWritten: nat

    // An accepted position never exceeds the bytes that were written.
    ghost predicate Valid()
      reads this
    {
      position.valid ==> position.bytes <= audioWritten
    }

    constructor ()
      ensures Valid() && !position.valid && audioWritten == 0
    {
      position := Position(false, 0, 0, 0, 0, 0);
      audioWritten := 0;
    }

    method Written(n: nat)
      requires Valid()
      modifies this`audioWritten
      ensures Valid() && audioWritten == old(audioWritten) + n
    {
      audioWritten := audioWritten + n;
    }

    // A stream that stops is not expected to make progress until then.
    method PlaybackStopped(now: Ns)
      requires Valid()
      modifies this`position
      ensures Valid() && position == old(position).(progress := now)
    {
      position := position.(progress := now);
    }

    // Accepted positions advance together with their time stamps; anything else leaves the
    // position alone.
    method PositionReceived(r: Report, now: Ns, running: bool) returns (accepted: bool)
      requires Valid()
      modifies this`position
      ensures Valid() && accepted == Acceptable(old(position), r, audioWritten, now)
      ensures if accepted then
                && position.valid
                && position.bytes == r.bytes && position.stamp == Stamp(r) && position.received == now && position.remote == r.remote
                && position.progress == (if old(position.valid) && r.bytes == old(position.bytes) && running then old(position.progress) else now)
              else position == old(position)
      ensures old(position.valid) ==> position.valid && position.bytes >= old(position.bytes) && position.stamp >= old(position.stamp)
    {
      if !r.complete || !r.valid || r.sec < 0 || r.nsec < 0 || r.nsec >= 1000000000
         || Stamp(r) >= WORD || r.bytes > audioWritten || (position.valid && r.bytes < position.bytes) {
        return false;
      }
      var stamp: Ns := Stamp(r);
      if stamp > now || (position.valid && stamp < position.stamp) {
        return false;
      }
      var progress := position.progress;
      if !position.valid || r.bytes != position.bytes || !running {
        progress := now;
      }
      position := Position(true, r.bytes, stamp, now, progress, r.remote);
      return true;
    }

    // No level without a position, nor from a stale or stalled transport.
    method PlaybackLevel(queued: nat, now: Ns, speed: nat, running: bool) returns (level: Option<real>)
      requires Valid() && speed > 0
      ensures level.Some? <==> position.valid && !Stale(position, audioWritten, now, running)
      ensures level.Some? ==>
                var waiting := Waiting(position, queued, audioWritten, now, speed);
                && level.value * speed as real == waiting
                && queued as real <= waiting <= (queued + audioWritten - position.bytes) as real
                && waiting >= (queued + audioWritten - position.bytes) as real - 0.2 * speed as real
    {
      if !position.valid {
        return None;
      }
      if Since(now, position.received) > TIMEOUT {
        return None;
      }
      if running && audioWritten > position.bytes && Since(now, position.progress) > TIMEOUT {
        return None;
      }
      WaitingIsBracketed(position, queued, audioWritten, now, speed);
      var waiting := Waiting(position, queued, audioWritten, now, speed);
      Divided(waiting, speed as real);
      return Some(waiting / speed as real);
    }

    // Is the transport more than 100 ms behind? Then more than a tenth of a second is queued
    // or unacknowledged; if it is not, at most three tenths are.
    method IsBehind(queued: nat, now: Ns, speed: nat, running: bool) returns (behind: bool, stalled: bool)
      requires Valid() && speed > 0
      ensures stalled == (position.valid && Stale(position, audioWritten, now, running))
      ensures behind ==> position.valid && 10 * (queued + audioWritten - position.bytes) > speed
      ensures position.valid && !stalled && !behind ==> 10 * (queued + audioWritten - position.bytes) <= 3 * speed
    {
      var level := PlaybackLevel(queued, now, speed, running);
      if level.Some? {
        behind, stalled := level.value > 0.1, false;
        TenthOfASecond(level.value, Waiting(position, queued, audioWritten, now, speed), queued + audioWritten - position.bytes, speed);
      } else {
        behind, stalled := false, position.valid;
      }
    }
  }
}
