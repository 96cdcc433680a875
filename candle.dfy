/**
 * The candle script: a 16-slot strip where every slot is driven by a flicker
 * light. A light counts down its `time`; when the count reaches zero or less it
 * writes a new brightness of its base colour into its own slot and re-arms the
 * count. Ember lights always use the same brightness and duration; glow lights
 * draw both from a stream of 16-bit random words. The loop picks the glow set
 * when the measured distance is below 120 cm and the ember set otherwise.
 */
module Candle {
  import opened Colors

  /** Number of leds on the strip. */
  const LED_COUNT := 16

  /** A strip position. */
  type Slot = x: int | 0 <= x < LED_COUNT

  /** One value of `int.from_bytes(uos.urandom(2), ...)`. */
  type Word16 = x: int | 0 <= x < 0x1_0000

  /** The module-level base colour `r, g, b` that glow lights scale. */
  const GLOW_BASE := Rgb(255, 120, 10)

  /** `EmberLight.RED`, `GREEN`, `BLUE`. */
  const EMBER_BASE := Rgb(255, 60, 10)

  const EMBER_BRIGHTNESS := 40
  const EMBER_DURATION := 20

  /** The glow duration taken on the common branch of `random_duration`. */
  const GLOW_STEADY_DURATION := 20

  // ---------------------------------------------------------------------------
  // Arithmetic as the script's floats compute it

  /** `int(x)`: conversion to an integer rounds toward zero. */
  function Truncate(x: real): (n: int)
    ensures x >= 0.0 ==> n as real <= x < n as real + 1.0
    ensures x < 0.0 ==> n as real - 1.0 < x <= n as real
  {
    if x >= 0.0 then x.Floor else -((-x).Floor)
  }

  /** Integer division rounding toward zero, as `int(n / d)` does for positive `d`. */
  function TruncDiv(n: int, d: int): int
    requires d > 0
  {
    if n >= 0 then n / d else -((-n) / d)
  }

  /** The exact quotient of two integers, taken as a real, truncates to `TruncDiv`. */
  lemma TruncateQuotient(n: int, d: int)
    requires d > 0
    ensures Truncate(n as real / d as real) == TruncDiv(n, d)
  {
    if n >= 0 {
      FloorQuotient(n, d);
    } else {
      FloorQuotient(-n, d);
      assert n as real / d as real == -((-n) as real / d as real);
    }
  }

  /** The real quotient of a non-negative integer by a positive one floors to the integer quotient. */
  lemma FloorQuotient(m: int, d: int)
    requires m >= 0 && d > 0
    ensures (m as real / d as real).Floor == m / d
  {
    QuotientBetween((m / d) as real, (m % d) as real, d as real, m as real);
  }

  /** `m = q * d + r` with `0 <= r < d` puts `m / d` between `q` and `q + 1`. */
  lemma QuotientBetween(q: real, r: real, d: real, m: real)
    requires d > 0.0 && 0.0 <= r < d && m == q * d + r
    ensures q <= m / d < q + 1.0
  {
    var f := r / d;
    assert f * d == r;
    assert (q + f) * d == m;
    assert m / d == q + f;
    assert (1.0 - f) * d == d - r;
    NonNegativeFactor(f, d);
    NonNegativeFactor(1.0 - f, d);
  }

  /** A factor of a positive multiple of a positive number is positive. */
  lemma NonNegativeFactor(a: real, d: real)
    requires d > 0.0
    ensures a * d >= 0.0 ==> a >= 0.0
    ensures a * d > 0.0 ==> a > 0.0
  {
  }

  /**
   * `randint(lo, hi)` for the random word `v`:
   * `lo + int(v / 65536.0 * (hi - lo + 1))`, in exact integer arithmetic.
   */
  function RandInt(lo: int, hi: int, v: Word16): (x: int)
    ensures lo <= hi ==> lo <= x <= hi
  {
    if lo <= hi then RandIntInRange(lo, hi, v) else lo + TruncDiv(v * (hi - lo + 1), 0x1_0000)
  }

  /** The in-range case of `RandInt`, with the bound proved from `v < 65536`. */
  function RandIntInRange(lo: int, hi: int, v: Word16): (x: int)
    requires lo <= hi
    ensures x == lo + TruncDiv(v * (hi - lo + 1), 0x1_0000)
    ensures lo <= x <= hi
  {
    var n := hi - lo + 1;
    assert 0 <= v * n <= 0xFFFF * n;
    assert v * n < 0x1_0000 * n;
    DivBelow(v * n, n, 0x1_0000);
    lo + (v * n) / 0x1_0000
  }

  /** A quotient stays below `b` when the dividend stays below `b` times the divisor. */
  lemma DivBelow(a: int, b: int, d: int)
    requires d > 0 && 0 <= a < b * d
    ensures a / d < b
  {
    assert d * (a / d) <= a;
    assert d * (a / d - b) < 0;
  }

  /** The float formula of `randint`, over the reals. */
  function RandIntFormula(lo: int, hi: int, v: Word16): real
  {
    lo as real + Truncate((v as real / 65536.0) * ((hi - lo + 1) as real)) as real
  }

  /**
   * The integer form agrees with the float formula. (The real product is what
   * the single-precision product computes: dividing by 65536 only shifts the
   * exponent, and v * (hi - lo + 1) stays below 2^23 for the ranges used, so
   * the product has an exact 24-bit significand.)
   */
  lemma RandIntMatchesFormula(lo: int, hi: int, v: Word16)
    ensures RandIntFormula(lo, hi, v) == RandInt(lo, hi, v) as real
  {
    var n := hi - lo + 1;
    var t := TruncDiv(v * n, 0x1_0000);
    ScaledWordTruncates(v, n);
    FormulaIs(lo, hi, v, t);
    assert RandInt(lo, hi, v) == lo + t;
  }

  /** `RandIntFormula` once its truncated product is known to be `t`. */
  lemma FormulaIs(lo: int, hi: int, v: Word16, t: int)
    requires Truncate((v as real / 65536.0) * ((hi - lo + 1) as real)) == t
    ensures RandIntFormula(lo, hi, v) == lo as real + t as real
  {
  }

  /** `int(v / 65536.0 * n)` is the truncated integer quotient of `v * n` by 65536. */
  lemma ScaledWordTruncates(v: Word16, n: int)
    ensures Truncate((v as real / 65536.0) * (n as real)) == TruncDiv(v * n, 0x1_0000)
  {
    ScaleQuotient(v as real, n as real, 65536.0);
    CastProduct(v, n);
    TruncateQuotient(v * n, 0x1_0000);
  }

  /** Scaling a quotient scales its dividend. */
  lemma ScaleQuotient(a: real, n: real, k: real)
    requires k > 0.0
    ensures (a / k) * n == (a * n) / k
  {
    assert (a / k) * k == a;
    assert ((a / k) * n) * k == a * n;
  }

  /** Taking integers to the reals commutes with multiplication. */
  lemma CastProduct(a: int, b: int)
    ensures (a * b) as real == a as real * b as real
  {
  }

  /** Both ends of the range are drawn: word 0 gives `lo`, word 0xFFFF gives `hi` (so `randint(0, 100)` can be 100). */
  lemma RandIntEnds(lo: int, hi: int)
    requires lo <= hi && hi - lo < 0x1_0000
    ensures RandInt(lo, hi, 0) == lo && RandInt(lo, hi, 0xFFFF) == hi
  {
    var n := hi - lo + 1;
    assert 0xFFFF * n == 0x1_0000 * (n - 1) + (0x1_0000 - n);
    assert (0xFFFF * n) / 0x1_0000 == n - 1;
  }

  /** The selector `randint(0, 100)` reaches 100: a sixth, not a fifth, band would be needed for `[0, 100)`. */
  lemma SelectorReachesHundred()
    ensures RandInt(0, 100, 0xFFFF) == 100
  {
    RandIntEnds(0, 100);
  }

  /** `c_brightness(c, p)`: `max(0, min(c * p / 100, 255))` with true division. */
  function CBrightness(c: int, p: int): (v: real)
    ensures 0.0 <= v <= 255.0
    ensures c * p <= 0 ==> v == 0.0
  {
    var x := (c * p) as real / 100.0;
    var y := if x <= 255.0 then x else 255.0;
    if 0.0 >= y then 0.0 else y
  }

  /** One channel of `Color(c_brightness(c, p), ...)`, in integer arithmetic. */
  function Channel(c: int, p: int): (v: Byte)
    ensures 0 <= c <= 255 && 0 <= p <= 100 ==> v <= c
    ensures 0 <= c <= 255 && p == 100 ==> v == c
    ensures p <= 0 && c >= 0 ==> v == 0
  {
    ProductBounds(c, p);
    Clamped(c * p)
  }

  /** `max(0, min(x / 100, 255))` truncated, for the integer product `x`. */
  function Clamped(x: int): (v: Byte)
    ensures x <= 0 ==> v == 0
    ensures 0 <= x <= 25500 ==> v == x / 100
  {
    if x < 0 then 0 else if x / 100 > 255 then 255 else x / 100
  }

  /** The signs and bounds of a channel times a percentage. */
  lemma ProductBounds(c: int, p: int)
    ensures 0 <= c && 0 <= p <= 100 ==> 0 <= c * p <= c * 100
    ensures p == 100 ==> c * p == c * 100
    ensures p <= 0 && c >= 0 ==> c * p <= 0
  {
    if 0 <= c && 0 <= p <= 100 {
      MulNonNegative(c, p);
      MulNonNegative(c, 100 - p);
      assert c * (100 - p) == c * 100 - c * p;
    }
    if p <= 0 && c >= 0 {
      MulNonNegative(c, -p);
      assert c * (-p) == -(c * p);
    }
  }

  lemma MulNonNegative(a: int, b: int)
    requires 0 <= a && 0 <= b
    ensures 0 <= a * b
  {
  }

  /**
   * The integer channel is the float brightness truncated by `int`: `min` and
   * `max` with integers commute with the truncation of a non-negative value.
   * (In single precision `c * p / 100` with `c * p <= 25500` is either an exact
   * integer or at least 0.01 from one, far more than its rounding error, so it
   * truncates to `c * p` divided by 100.)
   */
  lemma ChannelMatchesFloat(c: int, p: int)
    ensures Channel(c, p) == Truncate(CBrightness(c, p))
  {
    TruncateQuotient(c * p, 100);
    var x := (c * p) as real / 100.0;
    if c * p < 0 {
      assert x < 0.0;
    } else if (c * p) / 100 > 255 {
      assert x >= 256.0;
    } else {
      assert 0.0 <= x < 256.0;
      if x > 255.0 {
        assert (c * p) / 100 == 255;
      }
    }
  }

  /** A brighter setting never gives a dimmer channel. */
  lemma ChannelMonotone(c: int, p1: int, p2: int)
    requires 0 <= c && p1 <= p2
    ensures Channel(c, p1) <= Channel(c, p2)
  {
    MulNonNegative(c, p2 - p1);
    assert c * (p2 - p1) == c * p2 - c * p1;
    ClampedMonotone(c * p1, c * p2);
  }

  lemma ClampedMonotone(x1: int, x2: int)
    requires x1 <= x2
    ensures Clamped(x1) <= Clamped(x2)
  {
    if 0 <= x1 {
      assert x1 / 100 <= x2 / 100;
    }
  }

  /** `Color(c_brightness(base.r, p), c_brightness(base.g, p), c_brightness(base.b, p))`. */
  function Dimmed(base: Rgb, p: int): (c: Rgb)
    ensures 0 <= p <= 100 ==> c.r <= base.r && c.g <= base.g && c.b <= base.b
    ensures p == 100 ==> c == base
  {
    Rgb(Channel(base.r, p), Channel(base.g, p), Channel(base.b, p))
  }

  /** The colour every ember light writes: 40 % of (255, 60, 10). */
  lemma EmberShade()
    ensures Dimmed(EMBER_BASE, EMBER_BRIGHTNESS) == Rgb(102, 24, 4)
  {
  }

  // ---------------------------------------------------------------------------
  // The glow light's random tables

  /** The brightness band `random_mode` picks for a selector value. */
  function BrightnessBand(sel: int): (band: (int, int))
    ensures 30 <= band.0 <= band.1 <= 100
  {
    if sel < 50 then (77, 80)
    else if sel < 80 then (80, 100)
    else if sel < 85 then (50, 80)
    else if sel < 90 then (40, 50)
    else (30, 40)
  }

  /** The brightness `random_mode` draws from two random words. */
  function GlowBrightness(w0: Word16, w1: Word16): (p: int)
    ensures 30 <= p <= 100
    ensures BrightnessBand(RandInt(0, 100, w0)).0 <= p <= BrightnessBand(RandInt(0, 100, w0)).1
  {
    var sel := RandInt(0, 100, w0);
    if sel < 50 then RandInt(77, 80, w1)
    else if sel < 80 then RandInt(80, 100, w1)
    else if sel < 85 then RandInt(50, 80, w1)
    else if sel < 90 then RandInt(40, 50, w1)
    else RandInt(30, 40, w1)
  }

  /** A drawn value and the number of random words the draw used. */
  datatype Draw = Draw(value: int, used: nat)

  /**
   * Whether `random_duration` can run on the words of `rnd` from position `at`:
   * one word, and a second when the rare branches draw the count.
   */
  predicate DurationDrawable(rnd: seq<Word16>, at: nat)
  {
    at < |rnd| && (RandInt(0, 100, rnd[at]) >= 90 ==> at + 1 < |rnd|)
  }

  /** The range of countdowns `random_duration` picks for a selector value. */
  function DurationBand(sel: int): (band: (int, int))
    ensures 0 <= band.0 <= band.1 <= 30
  {
    if sel < 90 then (GLOW_STEADY_DURATION, GLOW_STEADY_DURATION)
    else if sel < 93 then (20, 30)
    else if sel < 96 then (10, 20)
    else (0, 10)
  }

  /** The countdown `random_duration` sets, and how many words it used. */
  function GlowDuration(rnd: seq<Word16>, at: nat): (d: Draw)
    requires DurationDrawable(rnd, at)
    ensures 0 <= d.value <= 30 && 1 <= d.used <= 2 && at + d.used <= |rnd|
    ensures RandInt(0, 100, rnd[at]) < 90 <==> d.used == 1
    ensures d.used == 1 ==> d.value == GLOW_STEADY_DURATION
    ensures DurationBand(RandInt(0, 100, rnd[at])).0 <= d.value <= DurationBand(RandInt(0, 100, rnd[at])).1
  {
    var sel := RandInt(0, 100, rnd[at]);
    if sel < 90 then Draw(GLOW_STEADY_DURATION, 1)
    else if sel < 93 then Draw(RandInt(20, 30, rnd[at + 1]), 2)
    else if sel < 96 then Draw(RandInt(10, 20, rnd[at + 1]), 2)
    else Draw(RandInt(0, 10, rnd[at + 1]), 2)
  }

  /** A countdown of 0 can be drawn: the top selector value picks the last band and word 0 its lowest count. */
  lemma GlowDurationCanBeZero()
    ensures GlowDuration([0xFFFF, 0], 0) == Draw(0, 2)
  {
    SelectorReachesHundred();
    RandIntEnds(0, 10);
  }

  // ---------------------------------------------------------------------------
  // One light, as a value

  datatype Kind = Ember | Glow

  /** The state of one light object: its countdown and its slot. */
  datatype Light = Light(time: int, pos: Slot)

  /** The largest number of random words one update of a light of this kind uses. */
  function WordsPerUpdate(kind: Kind): nat
  {
    match kind
    case Ember => 0
    case Glow => 4
  }

  /** The most random words a round of `count` lights of this kind uses. */
  function RoundWords(kind: Kind, count: nat): (n: nat)
    ensures n == (match kind case Ember => 0 case Glow => 4 * count)
  {
    count * WordsPerUpdate(kind)
  }

  /** The countdown and the strip after a step, and how many random words it used. */
  datatype Step = Step(time: int, pixels: seq<Rgb>, used: nat)

  /** `mode()` then `duration()` (ember) or `random_mode()` then `random_duration()` (glow), drawing from position `at`. */
  function Fire(kind: Kind, pos: Slot, pixels: seq<Rgb>, rnd: seq<Word16>, at: nat): (s: Step)
    requires |pixels| == LED_COUNT && at + WordsPerUpdate(kind) <= |rnd|
    ensures |s.pixels| == LED_COUNT && 0 <= s.time <= 30 && s.used <= WordsPerUpdate(kind)
    ensures forall k :: 0 <= k < LED_COUNT && k != pos ==> s.pixels[k] == pixels[k]
  {
    match kind
    case Ember =>
      Step(EMBER_DURATION, pixels[pos := Dimmed(EMBER_BASE, EMBER_BRIGHTNESS)], 0)
    case Glow =>
      var p := GlowBrightness(rnd[at], rnd[at + 1]);
      var d := GlowDuration(rnd, at + 2);
      Step(d.value, pixels[pos := Dimmed(GLOW_BASE, p)], 2 + d.used)
  }

  /** An ember light that fires writes (102, 24, 4) into its slot, re-arms to 20 and draws nothing. */
  lemma FireEmber(pos: Slot, pixels: seq<Rgb>, rnd: seq<Word16>, at: nat)
    requires |pixels| == LED_COUNT && at <= |rnd|
    ensures Fire(Ember, pos, pixels, rnd, at) == Step(EMBER_DURATION, pixels[pos := Rgb(102, 24, 4)], 0)
  {
    EmberShade();
  }

  /** A glow light that fires writes its base colour at 30 to 100 percent into its slot and draws three or four words. */
  lemma FireGlow(pos: Slot, pixels: seq<Rgb>, rnd: seq<Word16>, at: nat)
    requires |pixels| == LED_COUNT && at + WordsPerUpdate(Glow) <= |rnd|
    ensures var s := Fire(Glow, pos, pixels, rnd, at);
      GlowShade(s.pixels[pos]) && 3 <= s.used <= 4
  {
    var p := GlowBrightness(rnd[at], rnd[at + 1]);
    assert Fire(Glow, pos, pixels, rnd, at).pixels[pos] == Dimmed(GLOW_BASE, p);
  }

  /** `update(delta)` of one light: count down, and fire once the count is no longer positive. */
  function UpdateStep(kind: Kind, light: Light, delta: int, pixels: seq<Rgb>, rnd: seq<Word16>, at: nat): (s: Step)
    requires |pixels| == LED_COUNT && at + WordsPerUpdate(kind) <= |rnd|
    ensures |s.pixels| == LED_COUNT && s.used <= WordsPerUpdate(kind)
    ensures light.time - delta > 0 ==> s == Step(light.time - delta, pixels, 0)
    ensures light.time - delta <= 0 ==> 0 <= s.time <= 30
    ensures forall k :: 0 <= k < LED_COUNT && k != light.pos ==> s.pixels[k] == pixels[k]
  {
    var time := light.time - delta;
    if time <= 0 then Fire(kind, light.pos, pixels, rnd, at) else Step(time, pixels, 0)
  }

  // ---------------------------------------------------------------------------
  // One call of `lightCandles`, as a value

  /** The countdowns of all lights and the strip after a round, and how many random words it used. */
  datatype Round = Round(times: seq<int>, pixels: seq<Rgb>, used: nat)

  /** `[l.update(now) for l in candles]`: every light in list order, all with the same `delta`, drawing from position `at` on. */
  function RoundOf(kind: Kind, lights: seq<Light>, delta: int, pixels: seq<Rgb>, rnd: seq<Word16>, at: nat): (r: Round)
    requires |pixels| == LED_COUNT && at + RoundWords(kind, |lights|) <= |rnd|
    ensures |r.times| == |lights| && |r.pixels| == LED_COUNT
    ensures r.used <= RoundWords(kind, |lights|)
    decreases |lights|
  {
    if lights == [] then
      Round([], pixels, 0)
    else
      var n := |lights| - 1;
      var prev := RoundOf(kind, lights[..n], delta, pixels, rnd, at);
      var s := UpdateStep(kind, lights[n], delta, prev.pixels, rnd, at + prev.used);
      Round(prev.times + [s.time], s.pixels, prev.used + s.used)
  }

  /** The round over the first `i + 1` lights is the round `r` over the first `i` followed by the update of light `i`. */
  lemma RoundExtend(kind: Kind, lights: seq<Light>, i: nat, delta: int, pixels: seq<Rgb>, rnd: seq<Word16>, at: nat, r: Round)
    requires i < |lights| && |pixels| == LED_COUNT && at + RoundWords(kind, i + 1) <= |rnd|
    requires r == RoundOf(kind, lights[..i], delta, pixels, rnd, at)
    ensures var s := UpdateStep(kind, lights[i], delta, r.pixels, rnd, at + r.used);
      RoundOf(kind, lights[..i + 1], delta, pixels, rnd, at) == Round(r.times + [s.time], s.pixels, r.used + s.used)
  {
    match kind
    case Ember => EmberRoundExtend(lights, i, delta, pixels, rnd, at, r);
    case Glow => GlowRoundExtend(lights, i, delta, pixels, rnd, at, r);
  }

  lemma EmberRoundExtend(lights: seq<Light>, i: nat, delta: int, pixels: seq<Rgb>, rnd: seq<Word16>, at: nat, r: Round)
    requires i < |lights| && |pixels| == LED_COUNT && at <= |rnd|
    requires r == RoundOf(Ember, lights[..i], delta, pixels, rnd, at)
    ensures var s := UpdateStep(Ember, lights[i], delta, r.pixels, rnd, at + r.used);
      RoundOf(Ember, lights[..i + 1], delta, pixels, rnd, at) == Round(r.times + [s.time], s.pixels, r.used + s.used)
  {
    var prefix := lights[..i + 1];
    assert prefix[..i] == lights[..i] && prefix[i] == lights[i] && |prefix| - 1 == i;
  }

  lemma GlowRoundExtend(lights: seq<Light>, i: nat, delta: int, pixels: seq<Rgb>, rnd: seq<Word16>, at: nat, r: Round)
    requires i < |lights| && |pixels| == LED_COUNT && at + RoundWords(Glow, i + 1) <= |rnd|
    requires r == RoundOf(Glow, lights[..i], delta, pixels, rnd, at)
    ensures var s := UpdateStep(Glow, lights[i], delta, r.pixels, rnd, at + r.used);
      RoundOf(Glow, lights[..i + 1], delta, pixels, rnd, at) == Round(r.times + [s.time], s.pixels, r.used + s.used)
  {
    var prefix := lights[..i + 1];
    assert prefix[..i] == lights[..i] && prefix[i] == lights[i] && |prefix| - 1 == i;
  }

  /** Every light in a round: unchanged apart from the count when it stays positive, re-armed to at most 30 when it fires. */
  lemma RoundTimes(kind: Kind, lights: seq<Light>, delta: int, pixels: seq<Rgb>, rnd: seq<Word16>, at: nat)
    requires |pixels| == LED_COUNT && at + RoundWords(kind, |lights|) <= |rnd|
    ensures var r := RoundOf(kind, lights, delta, pixels, rnd, at);
      forall j :: 0 <= j < |lights| ==>
        (lights[j].time - delta > 0 ==> r.times[j] == lights[j].time - delta)
        && (lights[j].time - delta <= 0 ==> 0 <= r.times[j] <= 30)
  {
    forall j | 0 <= j < |lights| {
      RoundTimeAt(kind, lights, delta, pixels, rnd, at, j);
    }
  }

  /** The count of light `j` after a round. */
  lemma {:induction false} RoundTimeAt(kind: Kind, lights: seq<Light>, delta: int, pixels: seq<Rgb>, rnd: seq<Word16>, at: nat, j: nat)
    requires |pixels| == LED_COUNT && at + RoundWords(kind, |lights|) <= |rnd| && j < |lights|
    ensures var t := RoundOf(kind, lights, delta, pixels, rnd, at).times[j];
      (lights[j].time - delta > 0 ==> t == lights[j].time - delta) && (lights[j].time - delta <= 0 ==> 0 <= t <= 30)
    decreases |lights|
  {
    var n := |lights| - 1;
    if j < n {
      RoundTimeAt(kind, lights[..n], delta, pixels, rnd, at, j);
      assert lights[..n][j] == lights[j];
    }
  }

  /** A slot that no firing light owns keeps its colour through the round. */
  lemma {:induction false} RoundWritesOnlyFiringSlots(kind: Kind, lights: seq<Light>, delta: int, pixels: seq<Rgb>, rnd: seq<Word16>, at: nat, k: int)
    requires |pixels| == LED_COUNT && at + RoundWords(kind, |lights|) <= |rnd|
    requires 0 <= k < LED_COUNT
    requires forall j :: 0 <= j < |lights| && lights[j].pos == k ==> lights[j].time - delta > 0
    ensures RoundOf(kind, lights, delta, pixels, rnd, at).pixels[k] == pixels[k]
    decreases |lights|
  {
    if lights != [] {
      var n := |lights| - 1;
      assert forall j :: 0 <= j < n ==> lights[..n][j] == lights[j];
      RoundWritesOnlyFiringSlots(kind, lights[..n], delta, pixels, rnd, at, k);
    }
  }

  /** After an ember round each slot holds its old colour or the ember shade (102, 24, 4), and a slot whose light fires holds the shade. */
  lemma {:induction false} EmberRoundShades(lights: seq<Light>, delta: int, pixels: seq<Rgb>, k: int)
    requires |pixels| == LED_COUNT && 0 <= k < LED_COUNT
    ensures var r := RoundOf(Ember, lights, delta, pixels, [], 0);
      r.pixels[k] == pixels[k] || r.pixels[k] == Rgb(102, 24, 4)
    ensures (exists j :: 0 <= j < |lights| && lights[j].pos == k && lights[j].time - delta <= 0) ==>
      RoundOf(Ember, lights, delta, pixels, [], 0).pixels[k] == Rgb(102, 24, 4)
    decreases |lights|
  {
    if lights != [] {
      var n := |lights| - 1;
      EmberRoundShades(lights[..n], delta, pixels, k);
      var prev := RoundOf(Ember, lights[..n], delta, pixels, [], 0);
      if lights[n].time - delta <= 0 {
        FireEmber(lights[n].pos, prev.pixels, [], 0);
      }
      if exists j :: 0 <= j < |lights| && lights[j].pos == k && lights[j].time - delta <= 0 {
        var j :| 0 <= j < |lights| && lights[j].pos == k && lights[j].time - delta <= 0;
        if j < n {
          assert lights[..n][j] == lights[j];
        }
      }
    }
  }

  /** A colour some glow light can write: the base colour at a brightness of 30 to 100 percent. */
  predicate GlowShade(c: Rgb)
  {
    exists p :: 30 <= p <= 100 && c == Dimmed(GLOW_BASE, p)
  }

  /** After a glow round each slot holds its old colour or a glow shade, and a slot whose light fires holds a glow shade. */
  lemma {:induction false} GlowRoundShades(lights: seq<Light>, delta: int, pixels: seq<Rgb>, rnd: seq<Word16>, at: nat, k: int)
    requires |pixels| == LED_COUNT && at + RoundWords(Glow, |lights|) <= |rnd| && 0 <= k < LED_COUNT
    ensures var r := RoundOf(Glow, lights, delta, pixels, rnd, at);
      r.pixels[k] == pixels[k] || GlowShade(r.pixels[k])
    ensures (exists j :: 0 <= j < |lights| && lights[j].pos == k && lights[j].time - delta <= 0) ==>
      GlowShade(RoundOf(Glow, lights, delta, pixels, rnd, at).pixels[k])
    decreases |lights|
  {
    if lights != [] {
      var n := |lights| - 1;
      GlowRoundShades(lights[..n], delta, pixels, rnd, at, k);
      var prev := RoundOf(Glow, lights[..n], delta, pixels, rnd, at);
      var light := lights[n];
      if light.time - delta <= 0 && light.pos == k {
        FireGlow(light.pos, prev.pixels, rnd, at + prev.used);
      }
      if exists j :: 0 <= j < |lights| && lights[j].pos == k && lights[j].time - delta <= 0 {
        var j :| 0 <= j < |lights| && lights[j].pos == k && lights[j].time - delta <= 0;
        if j < n {
          assert lights[..n][j] == lights[j];
        }
      }
    }
  }

  /**
   * `lightCandles` hands the absolute `ticks_ms()` value to `update` as its
   * `delta`. Counts never exceed 30 between rounds, so once the clock reads 30 ms
   * or more every light fires in every round.
   */
  lemma LateClockFiresEveryLight(kind: Kind, lights: seq<Light>, now: int, pixels: seq<Rgb>, rnd: seq<Word16>, at: nat)
    requires |pixels| == LED_COUNT && at + RoundWords(kind, |lights|) <= |rnd|
    requires now >= 30 && forall j :: 0 <= j < |lights| ==> lights[j].time <= 30
    ensures forall j :: 0 <= j < |lights| ==> lights[j].time - now <= 0
    ensures var r := RoundOf(kind, lights, now, pixels, rnd, at);
      forall j :: 0 <= j < |lights| ==> 0 <= r.times[j] <= 30
  {
    RoundTimes(kind, lights, now, pixels, rnd, at);
  }

  /** The counts stay at most 30 through any round with a non-negative `delta`, the bound the lemma above starts from. */
  lemma RoundKeepsCountBound(kind: Kind, lights: seq<Light>, delta: int, pixels: seq<Rgb>, rnd: seq<Word16>, at: nat)
    requires |pixels| == LED_COUNT && at + RoundWords(kind, |lights|) <= |rnd|
    requires delta >= 0 && forall j :: 0 <= j < |lights| ==> lights[j].time <= 30
    ensures var r := RoundOf(kind, lights, delta, pixels, rnd, at);
      forall j :: 0 <= j < |lights| ==> r.times[j] <= 30
  {
    RoundTimes(kind, lights, delta, pixels, rnd, at);
  }

  // ---------------------------------------------------------------------------
  // The light objects

  /** `EmberLight`: a fixed-shade flicker light at slot `pos`. */
  class EmberLight {
    var time: int
    const pos: Slot

    constructor(pos: Slot)
      ensures time == 0 && this.pos == pos
    {
      time := 0;
      this.pos := pos;
    }

    /** `set_brightness`: writes the ember base colour at `brightness` percent into its slot. */
    method SetBrightness(brightness: int, np: array<Rgb>)
      requires np.Length == LED_COUNT
      modifies np
      ensures np[..] == old(np[..])[pos := Dimmed(EMBER_BASE, brightness)]
    {
      np[pos] := Dimmed(EMBER_BASE, brightness);
    }

    /** `mode`: brightness 40. */
    method Mode(np: array<Rgb>)
      requires np.Length == LED_COUNT
      modifies np
      ensures np[..] == old(np[..])[pos := Rgb(102, 24, 4)]
    {
      EmberShade();
      SetBrightness(EMBER_BRIGHTNESS, np);
    }

    /** `duration`: re-arms the count to 20. */
    method Duration()
      modifies this`time
      ensures time == EMBER_DURATION
    {
      time := EMBER_DURATION;
    }

    /** `update(delta)`. */
    method Update(delta: int, np: array<Rgb>)
      requires np.Length == LED_COUNT
      modifies this`time, np
      ensures var s := UpdateStep(Ember, Light(old(time), pos), delta, old(np[..]), [], 0);
        time == s.time && np[..] == s.pixels
    {
      time := time - delta;
      if time <= 0 {
        Mode(np);
        Duration();
      }
    }
  }

  /**
   * `GlowLight`: a flicker light at slot `pos` with random brightness and
   * duration. The random words are read from `rnd` at the cursor `at`; each
   * method returns the cursor after the words it used.
   */
  class GlowLight {
    var time: int
    const pos: Slot

    constructor(pos: Slot)
      ensures time == 0 && this.pos == pos
    {
      time := 0;
      this.pos := pos;
    }

    /** `set_brightness`: writes the module base colour at `brightness` percent into its slot. */
    method SetBrightness(brightness: int, np: array<Rgb>)
      requires np.Length == LED_COUNT
      modifies np
      ensures np[..] == old(np[..])[pos := Dimmed(GLOW_BASE, brightness)]
    {
      np[pos] := Dimmed(GLOW_BASE, brightness);
    }

    /** `random_mode`: a selector word picks the band, a second word the brightness in it. */
    method RandomMode(np: array<Rgb>, rnd: seq<Word16>, at: nat) returns (next: nat)
      requires np.Length == LED_COUNT && at + 2 <= |rnd|
      modifies np
      ensures next == at + 2
      ensures np[..] == old(np[..])[pos := Dimmed(GLOW_BASE, GlowBrightness(rnd[at], rnd[at + 1]))]
    {
      var r := RandInt(0, 100, rnd[at]);
      var brightness := 0;
      if r < 50 {
        brightness := RandInt(77, 80, rnd[at + 1]);
      } else if r < 80 {
        brightness := RandInt(80, 100, rnd[at + 1]);
      } else if r < 85 {
        brightness := RandInt(50, 80, rnd[at + 1]);
      } else if r < 90 {
        brightness := RandInt(40, 50, rnd[at + 1]);
      } else {
        brightness := RandInt(30, 40, rnd[at + 1]);
      }
      SetBrightness(brightness, np);
      next := at + 2;
    }

    /** `random_duration`: a selector word, and for the rare bands a second word for the count. */
    method RandomDuration(rnd: seq<Word16>, at: nat) returns (next: nat)
      requires DurationDrawable(rnd, at)
      modifies this`time
      ensures time == GlowDuration(rnd, at).value && next == at + GlowDuration(rnd, at).used
    {
      var r := RandInt(0, 100, rnd[at]);
      if r < 90 {
        time := 20;
        next := at + 1;
      } else if r < 93 {
        time := RandInt(20, 30, rnd[at + 1]);
        next := at + 2;
      } else if r < 96 {
        time := RandInt(10, 20, rnd[at + 1]);
        next := at + 2;
      } else {
        time := RandInt(0, 10, rnd[at + 1]);
        next := at + 2;
      }
    }

    /** `update(delta)`. */
    method Update(delta: int, np: array<Rgb>, rnd: seq<Word16>, at: nat) returns (next: nat)
      requires np.Length == LED_COUNT && at + WordsPerUpdate(Glow) <= |rnd|
      modifies this`time, np
      ensures var s := UpdateStep(Glow, Light(old(time), pos), delta, old(np[..]), rnd, at);
        time == s.time && np[..] == s.pixels && next == at + s.used
    {
      time := time - delta;
      next := at;
      if time <= 0 {
        next := RandomMode(np, rnd, next);
        next := RandomDuration(rnd, next);
      }
    }
  }

  // ---------------------------------------------------------------------------
  // The light lists and the loop

  /** The states of a list of ember lights. */
  function EmberStates(candles: seq<EmberLight>): (ls: seq<Light>)
    reads candles
    ensures |ls| == |candles|
    ensures forall j :: 0 <= j < |candles| ==> ls[j] == Light(candles[j].time, candles[j].pos)
  {
    seq(|candles|, j requires 0 <= j < |candles| reads candles => Light(candles[j].time, candles[j].pos))
  }

  /** The states of a list of glow lights. */
  function GlowStates(candles: seq<GlowLight>): (ls: seq<Light>)
    reads candles
    ensures |ls| == |candles|
    ensures forall j :: 0 <= j < |candles| ==> ls[j] == Light(candles[j].time, candles[j].pos)
  {
    seq(|candles|, j requires 0 <= j < |candles| reads candles => Light(candles[j].time, candles[j].pos))
  }

  /** `[EmberLight(i) for i in range(LED_COUNT)]`. */
  method MakeEmberCandles() returns (candles: seq<EmberLight>)
    ensures |candles| == LED_COUNT
    ensures forall j :: 0 <= j < LED_COUNT ==> fresh(candles[j]) && candles[j].pos == j && candles[j].time == 0
    ensures forall i, j :: 0 <= i < j < |candles| ==> candles[i] != candles[j]
  {
    candles := [];
    for i := 0 to LED_COUNT
      invariant |candles| == i
      invariant forall j :: 0 <= j < i ==> fresh(candles[j]) && candles[j].pos == j && candles[j].time == 0
    {
      var light := new EmberLight(i);
      candles := candles + [light];
    }
  }

  /** `[GlowLight(i) for i in range(LED_COUNT)]`. */
  method MakeGlowCandles() returns (candles: seq<GlowLight>)
    ensures |candles| == LED_COUNT
    ensures forall j :: 0 <= j < LED_COUNT ==> fresh(candles[j]) && candles[j].pos == j && candles[j].time == 0
    ensures forall i, j :: 0 <= i < j < |candles| ==> candles[i] != candles[j]
  {
    candles := [];
    for i := 0 to LED_COUNT
      invariant |candles| == i
      invariant forall j :: 0 <= j < i ==> fresh(candles[j]) && candles[j].pos == j && candles[j].time == 0
    {
      var light := new GlowLight(i);
      candles := candles + [light];
    }
  }

  /**
   * One step of `lightCandles(emberCandles)`: light `i` of a list of distinct
   * lights is updated, which extends the round of the first `i` lights by one.
   */
  method UpdateEmberAt(candles: seq<EmberLight>, i: nat, now: int, np: array<Rgb>,
                       ghost start: seq<Light>, ghost pixels: seq<Rgb>, ghost r: Round)
    returns (ghost r': Round)
    requires i < |candles| && np.Length == LED_COUNT
    requires forall j :: 0 <= j < |candles| && j != i ==> candles[j] != candles[i]
    requires |start| == |candles| && |pixels| == LED_COUNT && start[i].pos == candles[i].pos
    requires r == RoundOf(Ember, start[..i], now, pixels, [], 0) && np[..] == r.pixels
    requires forall j :: 0 <= j < |candles| ==> candles[j].time == if j < i then r.times[j] else start[j].time
    modifies candles[i], np
    ensures r' == RoundOf(Ember, start[..i + 1], now, pixels, [], 0) && np[..] == r'.pixels
    ensures forall j :: 0 <= j < |candles| ==> candles[j].time == if j < i + 1 then r'.times[j] else start[j].time
  {
    RoundExtend(Ember, start, i, now, pixels, [], 0, r);
    ghost var s := UpdateStep(Ember, start[i], now, r.pixels, [], 0 + r.used);
    candles[i].Update(now, np);
    r' := Round(r.times + [s.time], s.pixels, r.used + s.used);
  }

  /** `lightCandles(emberCandles)` for the clock reading `now`; the strip is left for `show()`. */
  method LightEmberCandles(candles: seq<EmberLight>, now: int, np: array<Rgb>)
    requires np.Length == LED_COUNT
    requires forall i, j :: 0 <= i < j < |candles| ==> candles[i] != candles[j]
    modifies candles, np
    ensures var r := RoundOf(Ember, old(EmberStates(candles)), now, old(np[..]), [], 0);
      np[..] == r.pixels && forall j :: 0 <= j < |candles| ==> candles[j].time == r.times[j]
  {
    ghost var start := EmberStates(candles);
    ghost var pixels := np[..];
    ghost var r := Round([], pixels, 0);
    for i := 0 to |candles|
      invariant r == RoundOf(Ember, start[..i], now, pixels, [], 0)
      invariant np[..] == r.pixels
      invariant forall j :: 0 <= j < |candles| ==> candles[j].time == if j < i then r.times[j] else start[j].time
    {
      r := UpdateEmberAt(candles, i, now, np, start, pixels, r);
    }
    assert start[..|candles|] == start;
  }

  /**
   * One step of `lightCandles(glowCandles)`: light `i` of a list of distinct
   * lights is updated, which extends the round of the first `i` lights by one
   * and moves the random cursor past the words that light drew.
   */
  method UpdateGlowAt(candles: seq<GlowLight>, i: nat, now: int, np: array<Rgb>, rnd: seq<Word16>, at: nat, cursor: nat,
                      ghost start: seq<Light>, ghost pixels: seq<Rgb>, ghost r: Round)
    returns (next: nat, ghost r': Round)
    requires i < |candles| && np.Length == LED_COUNT && at + RoundWords(Glow, |candles|) <= |rnd|
    requires forall j :: 0 <= j < |candles| && j != i ==> candles[j] != candles[i]
    requires |start| == |candles| && |pixels| == LED_COUNT && start[i].pos == candles[i].pos
    requires r == RoundOf(Glow, start[..i], now, pixels, rnd, at)
    requires np[..] == r.pixels && cursor == at + r.used
    requires forall j :: 0 <= j < |candles| ==> candles[j].time == if j < i then r.times[j] else start[j].time
    modifies candles[i], np
    ensures r' == RoundOf(Glow, start[..i + 1], now, pixels, rnd, at)
    ensures np[..] == r'.pixels && next == at + r'.used
    ensures forall j :: 0 <= j < |candles| ==> candles[j].time == if j < i + 1 then r'.times[j] else start[j].time
  {
    RoundExtend(Glow, start, i, now, pixels, rnd, at, r);
    ghost var s := UpdateStep(Glow, start[i], now, r.pixels, rnd, at + r.used);
    next := candles[i].Update(now, np, rnd, cursor);
    r' := Round(r.times + [s.time], s.pixels, r.used + s.used);
  }

  /**
   * `lightCandles(glowCandles)` for the clock reading `now`, drawing random
   * words from `rnd` at the cursor `at`; returns the cursor after the round.
   */
  method LightGlowCandles(candles: seq<GlowLight>, now: int, np: array<Rgb>, rnd: seq<Word16>, at: nat) returns (next: nat)
    requires np.Length == LED_COUNT && at + RoundWords(Glow, |candles|) <= |rnd|
    requires forall i, j :: 0 <= i < j < |candles| ==> candles[i] != candles[j]
    modifies candles, np
    ensures var r := RoundOf(Glow, old(GlowStates(candles)), now, old(np[..]), rnd, at);
      np[..] == r.pixels && next == at + r.used && forall j :: 0 <= j < |candles| ==> candles[j].time == r.times[j]
  {
    ghost var start := GlowStates(candles);
    ghost var pixels := np[..];
    ghost var r := Round([], pixels, 0);
    next := at;
    for i := 0 to |candles|
      invariant r == RoundOf(Glow, start[..i], now, pixels, rnd, at)
      invariant np[..] == r.pixels && next == at + r.used
      invariant forall j :: 0 <= j < |candles| ==> candles[j].time == if j < i then r.times[j] else start[j].time
    {
      next, r := UpdateGlowAt(candles, i, now, np, rnd, at, next, start, pixels, r);
    }
    assert start[..|candles|] == start;
  }

  /**
   * One pass of the candle loop for a measured distance: the glow lights
   * below 120 cm, the ember lights otherwise. Returns the random cursor.
   */
  method CandleLoopStep(dis: real, glow: seq<GlowLight>, ember: seq<EmberLight>, now: int, np: array<Rgb>, rnd: seq<Word16>, at: nat)
    returns (next: nat)
    requires np.Length == LED_COUNT && at + RoundWords(Glow, |glow|) <= |rnd|
    requires forall i, j :: 0 <= i < j < |glow| ==> glow[i] != glow[j]
    requires forall i, j :: 0 <= i < j < |ember| ==> ember[i] != ember[j]
    modifies glow, ember, np
    ensures dis < 120.0 ==>
      var r := RoundOf(Glow, old(GlowStates(glow)), now, old(np[..]), rnd, at);
      np[..] == r.pixels && next == at + r.used && forall j :: 0 <= j < |glow| ==> glow[j].time == r.times[j]
    ensures dis < 120.0 ==> forall j :: 0 <= j < |ember| ==> ember[j].time == old(ember[j].time)
    ensures dis >= 120.0 ==>
      var r := RoundOf(Ember, old(EmberStates(ember)), now, old(np[..]), [], 0);
      np[..] == r.pixels && next == at && forall j :: 0 <= j < |ember| ==> ember[j].time == r.times[j]
    ensures dis >= 120.0 ==> forall j :: 0 <= j < |glow| ==> glow[j].time == old(glow[j].time)
  {
    if dis < 120.0 {
      next := LightGlowCandles(glow, now, np, rnd, at);
    } else {
      LightEmberCandles(ember, now, np);
      next := at;
    }
  }
}
