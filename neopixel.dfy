/**
 * `NeoPixelRing` of clock.py: a 16-slot buffer of packed GRB words, a 0.1
 * brightness applied only when a frame is shown, the colour wheel, the
 * second-to-slot mapping and the cyclic palette.
 */
module NeoPixel {
  import opened Colors

  const NUM_LEDS := 16

  const RED := Rgb(255, 0, 0)
  const YELLOW := Rgb(255, 150, 0)
  const GREEN := Rgb(0, 255, 0)
  const CYAN := Rgb(0, 255, 255)
  const BLUE := Rgb(0, 0, 255)
  const PURPLE := Rgb(180, 0, 255)
  const WHITE := Rgb(255, 255, 255)

  const COLORS: seq<Rgb> := [WHITE, RED, WHITE, GREEN, WHITE, BLUE, CYAN, PURPLE, WHITE, BLUE]
  const NUMBER_OF_COLORS := |COLORS|

  /** Channel `(w >> 8) & 0xFF` of a stored word. */
  function RedOf(w: nat): Byte { (w / 0x100) % 0x100 }

  /** Channel `(w >> 16) & 0xFF` of a stored word. */
  function GreenOf(w: nat): Byte { (w / 0x1_0000) % 0x100 }

  /** Channel `w & 0xFF` of a stored word. */
  function BlueOf(w: nat): Byte { w % 0x100 }

  /** `(g << 16) + (r << 8) + b`: the word `pixels_set` stores, which unpacks to the same colour. */
  function Pack(c: Rgb): (w: nat)
    ensures w < 0x100_0000
  {
    c.g * 0x1_0000 + c.r * 0x100 + c.b
  }

  /** Unpacking a stored word gives back the colour `pixels_set` was given. */
  lemma UnpackPack(c: Rgb)
    ensures RedOf(Pack(c)) == c.r && GreenOf(Pack(c)) == c.g && BlueOf(Pack(c)) == c.b
  {
    var w := Pack(c);
    assert w / 0x100 == c.g * 0x100 + c.r;
    assert w / 0x1_0000 == c.g;
  }

  /**
   * `int(c * BRIGHTNESS)` with BRIGHTNESS = 0.1. The single-precision 0.1 lies
   * slightly above one tenth, so the product never falls below c / 10 and truncation
   * gives exactly the integer quotient.
   */
  function Dim(c: Byte): (d: Byte)
    ensures d <= c
    ensures 10 * d <= c < 10 * d + 10
  {
    c / 10
  }

  /** The word `pixels_show` sends for a stored word: each channel dimmed, then repacked. */
  function DimWord(w: nat): (d: nat)
    ensures d < 0x100_0000
    ensures RedOf(d) == Dim(RedOf(w)) && GreenOf(d) == Dim(GreenOf(w)) && BlueOf(d) == Dim(BlueOf(w))
  {
    UnpackPack(Rgb(Dim(RedOf(w)), Dim(GreenOf(w)), Dim(BlueOf(w))));
    Pack(Rgb(Dim(RedOf(w)), Dim(GreenOf(w)), Dim(BlueOf(w))))
  }

  /** The frame shown for a buffer. */
  function ShowWords(ws: seq<nat>): (f: seq<nat>)
    ensures |f| == |ws|
  {
    seq(|ws|, k requires 0 <= k < |ws| => DimWord(ws[k]))
  }

  /** Showing what `pixels_set` stored gives back the colour, each channel dimmed. */
  lemma ShowAfterSet(c: Rgb)
    ensures RedOf(DimWord(Pack(c))) == c.r / 10 <= c.r
    ensures GreenOf(DimWord(Pack(c))) == c.g / 10 <= c.g
    ensures BlueOf(DimWord(Pack(c))) == c.b / 10 <= c.b
  {
    UnpackPack(c);
  }

  /** Python indexing of a 16-entry array: negative indices count from the end. */
  predicate InRange(i: int)
  {
    -NUM_LEDS <= i < NUM_LEDS
  }

  function Slot(i: int): (s: nat)
    requires InRange(i)
    ensures s < NUM_LEDS && (s == i || s == i + NUM_LEDS)
  {
    if i < 0 then i + NUM_LEDS else i
  }

  /** The ring part-way through `clockTick`: the top `count` slots hold the colour, the rest are as before. */
  function TopFilled(before: seq<nat>, c: Rgb, count: int): (ws: seq<nat>)
    requires |before| == NUM_LEDS
    ensures |ws| == NUM_LEDS
    ensures forall s :: 0 <= s < NUM_LEDS ==> ws[s] == if s >= NUM_LEDS - count then Pack(c) else before[s]
  {
    var k := if count <= 0 then NUM_LEDS else if count >= NUM_LEDS then 0 else NUM_LEDS - count;
    before[..k] + seq(NUM_LEDS - k, _ => Pack(c))
  }

  /** The buffer after `pixels_fill(c)`. */
  function Filled(c: Rgb): (ws: seq<nat>)
    ensures |ws| == NUM_LEDS && forall k :: 0 <= k < NUM_LEDS ==> ws[k] == Pack(c)
  {
    seq(NUM_LEDS, _ => Pack(c))
  }

  /**
   * `wheel(pos)`: red to green, green to blue and blue back to red over three
   * 85-wide bands; black outside [0, 255].
   */
  function Wheel(pos: int): (c: Rgb)
    ensures !(0 <= pos <= 255) ==> c == BLACK
    ensures 0 <= pos <= 255 ==> c.r + c.g + c.b == 255
    ensures pos == 0 || pos == 255 ==> c == RED
  {
    if pos < 0 || pos > 255 then Rgb(0, 0, 0)
    else if pos < 85 then Rgb(255 - pos * 3, pos * 3, 0)
    else if pos < 170 then Rgb(0, 255 - (pos - 85) * 3, (pos - 85) * 3)
    else Rgb((pos - 170) * 3, 0, 255 - (pos - 170) * 3)
  }

  function Dist(a: int, b: int): nat
  {
    if a < b then b - a else a - b
  }

  /** Neighbouring wheel positions differ by at most 3 in every channel, and the wheel closes at 255/0. */
  lemma WheelContinuous(pos: int)
    requires 0 <= pos < 255
    ensures Dist(Wheel(pos).r, Wheel(pos + 1).r) <= 3
    ensures Dist(Wheel(pos).g, Wheel(pos + 1).g) <= 3
    ensures Dist(Wheel(pos).b, Wheel(pos + 1).b) <= 3
    ensures Wheel(255) == Wheel(0)
  {
  }

  /**
   * `math.ceil((i / 59) * NUM_LEDS - 1)`, the slot `tick` writes. For i in
   * 0..58 the value 16 * i / 59 - 1 is at least 1/59 away from an integer,
   * far more than single-precision rounding error, so rounding cannot move
   * the ceiling; at i = 59 the float value is exactly 15.
   */
  function TickSlot(i: int): (p: int)
    ensures (p - 1) as real < (i as real / 59.0) * (NUM_LEDS as real) - 1.0 <= p as real
    ensures 0 <= i <= 59 ==> -1 <= p <= NUM_LEDS - 1
  {
    -((59 - NUM_LEDS * i) / 59)
  }

  /** The slot moves forward with the second. */
  lemma TickMonotone(i: int, j: int)
    requires i <= j
    ensures TickSlot(i) <= TickSlot(j)
  {
  }

  /** Every target in -1..15 is reached by some i in 0..59; only i = 0 reaches -1. */
  lemma TickCoversRing(s: int)
    requires -1 <= s < NUM_LEDS
    ensures 0 <= (59 * (s + 1)) / NUM_LEDS <= 59 && TickSlot((59 * (s + 1)) / NUM_LEDS) == s
    ensures forall i :: 0 <= i <= 59 && TickSlot(i) == -1 ==> i == 0
  {
    var i := (59 * (s + 1)) / NUM_LEDS;
    assert 59 * s < NUM_LEDS * i <= 59 * (s + 1);
  }

  /** Both ends of the minute, i = 0 (index -1) and i = 59, light the last slot. */
  lemma TickEnds()
    ensures TickSlot(0) == -1 && TickSlot(59) == NUM_LEDS - 1
    ensures Slot(TickSlot(0)) == Slot(TickSlot(59)) == NUM_LEDS - 1
  {
  }

  /** `(i * 256 // NUM_LEDS + j) & 255`, the wheel position of slot i in frame j. */
  function RainbowHue(i: nat, j: nat): (h: nat)
    ensures h <= 255
    ensures h == (16 * i + j) % 256
  {
    (i * 256 / NUM_LEDS + j) % 256
  }

  /** The buffer `rainbow_cycle` has filled when it shows frame j. */
  function RainbowWords(j: nat): (ws: seq<nat>)
    ensures |ws| == NUM_LEDS
  {
    seq(NUM_LEDS, i requires 0 <= i < NUM_LEDS => Pack(Wheel(RainbowHue(i, j))))
  }

  /** The frames `rainbow_cycle` hands to the LEDs: frame j shows rainbow j, for j = 0..254. */
  predicate RainbowShown(frames: seq<seq<nat>>)
  {
    |frames| == 255 && forall j :: 0 <= j < 255 ==> frames[j] == ShowWords(RainbowWords(j))
  }

  /** No slot of a rainbow frame is black: the wheel's out-of-range branch is never taken. */
  lemma RainbowNeverBlack(j: nat, i: nat)
    requires i < NUM_LEDS
    ensures var w := RainbowWords(j)[i]; RedOf(w) + GreenOf(w) + BlueOf(w) == 255
  {
    UnpackPack(Wheel(RainbowHue(i, j)));
  }

  /** The palette step of `getNextColor`. */
  function NextIndex(k: int): (n: int)
    ensures 0 <= k < NUMBER_OF_COLORS ==> 0 <= n < NUMBER_OF_COLORS && n == (k + 1) % NUMBER_OF_COLORS
  {
    if k + 1 > NUMBER_OF_COLORS - 1 then 0 else k + 1
  }

  function NextIndexIter(k: int, n: nat): int
  {
    if n == 0 then k else NextIndex(NextIndexIter(k, n - 1))
  }

  /** n palette steps advance the index by n modulo the palette size. */
  lemma {:induction false} NextIndexIterMod(k: int, n: nat)
    requires 0 <= k < NUMBER_OF_COLORS
    ensures NextIndexIter(k, n) == (k + n) % NUMBER_OF_COLORS
  {
    if n > 0 {
      NextIndexIterMod(k, n - 1);
      ModSuccessor(k + n - 1);
    }
  }

  /** Stepping the residue of m is the residue of m + 1. */
  lemma ModSuccessor(m: nat)
    ensures (m % NUMBER_OF_COLORS + 1) % NUMBER_OF_COLORS == (m + 1) % NUMBER_OF_COLORS
  {
  }

  /** Ten calls of `getNextColor` bring the palette back to where it started. */
  lemma PaletteCycle(k: int)
    requires 0 <= k < NUMBER_OF_COLORS
    ensures NextIndexIter(k, NUMBER_OF_COLORS) == k
  {
    NextIndexIterMod(k, NUMBER_OF_COLORS);
  }

  /** The first call after construction yields RED. */
  lemma FirstColorIsRed()
    ensures COLORS[NextIndex(0)] == RED
  {
  }

  /**
   * `previousPixel` of `color_chase`: the chase walks 15, 14, ..., 0, so the
   * slot lit at the step before is i + 1, and at i = 15 it is slot 0, the last
   * one lit by the previous pass.
   */
  function PreviousPixel(i: int): (p: int)
    ensures 0 <= i < NUM_LEDS ==> 0 <= p < NUM_LEDS && p == (i + 1) % NUM_LEDS
  {
    if i == NUM_LEDS - 1 then 0 else i + 1
  }

  /** The slot visited at step k of a chase pass. */
  function ChaseSlot(k: nat): int
  {
    NUM_LEDS - 1 - k % NUM_LEDS
  }

  lemma PreviousPixelIsPreviousStep(k: nat)
    ensures PreviousPixel(ChaseSlot(k + 1)) == ChaseSlot(k)
    ensures 0 <= ChaseSlot(k) < NUM_LEDS
  {
  }

  class NeoPixelRing {
    /** `self.ar`: one packed GRB word per LED. */
    const ar: array<nat>
    var colorIndex: int

    ghost predicate Valid()
      reads this
    {
      ar.Length == NUM_LEDS && 0 <= colorIndex < NUMBER_OF_COLORS
    }

    constructor ()
      ensures Valid() && fresh(ar)
      ensures ar[..] == seq(NUM_LEDS, _ => 0) && colorIndex == 0
    {
      ar := new nat[NUM_LEDS](_ => 0);
      colorIndex := 0;
    }

    /** `pixels_show`: builds the dimmed frame for the hardware, leaving `ar` as it is. */
    method PixelsShow() returns (frame: seq<nat>)
      requires Valid()
      ensures |frame| == NUM_LEDS
      ensures forall k :: 0 <= k < NUM_LEDS ==> frame[k] == DimWord(ar[k])
    {
      var dimmer := new nat[NUM_LEDS](_ => 0);
      var i := 0;
      while i < NUM_LEDS
        invariant 0 <= i <= NUM_LEDS
        invariant forall k :: 0 <= k < i ==> dimmer[k] == DimWord(ar[k])
      {
        var c := ar[i];
        var r := Dim(RedOf(c));
        var g := Dim(GreenOf(c));
        var b := Dim(BlueOf(c));
        dimmer[i] := Pack(Rgb(r, g, b));
        i := i + 1;
      }
      frame := dimmer[..];
    }

    /** `pixels_set(i, color)`; an index outside -16..15 raises IndexError (`ok` false) and writes nothing. */
    method PixelsSet(i: int, color: Rgb) returns (ok: bool)
      requires Valid()
      modifies ar
      ensures ok == InRange(i)
      ensures ok ==> ar[..] == old(ar[..])[Slot(i) := Pack(color)]
      ensures !ok ==> ar[..] == old(ar[..])
    {
      ok := InRange(i);
      if ok {
        ar[Slot(i)] := Pack(color);
      }
    }

    /** `pixels_fill(color)`. */
    method PixelsFill(color: Rgb)
      requires Valid()
      modifies ar
      ensures ar[..] == Filled(color)
    {
      var i := 0;
      while i < ar.Length
        invariant 0 <= i <= ar.Length
        invariant forall k :: 0 <= k < i ==> ar[k] == Pack(color)
      {
        var _ := PixelsSet(i, color);
        i := i + 1;
      }
    }

    /** `clockTick(color, wait)`: sets slots 15 down to 0, showing after each. */
    method ClockTick(color: Rgb) returns (frames: seq<seq<nat>>)
      requires Valid()
      modifies ar
      ensures ar[..] == Filled(color)
      ensures |frames| == NUM_LEDS
      ensures forall k :: 0 <= k < NUM_LEDS ==> frames[k] == ShowWords(TopFilled(old(ar[..]), color, k + 1))
    {
      frames := [];
      var i := NUM_LEDS - 1;
      while i >= 0
        invariant -1 <= i < NUM_LEDS
        invariant |frames| == NUM_LEDS - 1 - i
        invariant forall s :: 0 <= s < NUM_LEDS ==> ar[s] == if s > i then Pack(color) else old(ar[s])
        invariant forall k :: 0 <= k < |frames| ==> frames[k] == ShowWords(TopFilled(old(ar[..]), color, k + 1))
      {
        var _ := PixelsSet(i, color);
        var frame := PixelsShow();
        assert frame == ShowWords(ar[..]);
        assert ar[..] == TopFilled(old(ar[..]), color, |frames| + 1);
        frames := frames + [frame];
        i := i - 1;
      }
    }

    /** `tick(color, i)`: sets the slot for second i and shows the frame. */
    method Tick(color: Rgb, i: int) returns (ok: bool, frame: seq<nat>)
      requires Valid()
      modifies ar
      ensures ok == InRange(TickSlot(i))
      ensures 0 <= i <= 59 ==> ok
      ensures ok ==> ar[..] == old(ar[..])[Slot(TickSlot(i)) := Pack(color)] && frame == ShowWords(ar[..])
      ensures !ok ==> ar[..] == old(ar[..]) && frame == []
    {
      var pixel := TickSlot(i);
      ok := PixelsSet(pixel, color);
      frame := [];
      if ok {
        frame := PixelsShow();
      }
    }

    /** `rainbow_cycle(wait)`: 255 frames, j = 0..254, each filling every slot from the wheel. */
    method RainbowCycle() returns (frames: seq<seq<nat>>)
      requires Valid()
      modifies ar
      ensures RainbowShown(frames)
      ensures ar[..] == RainbowWords(254)
    {
      frames := [];
      var j := 0;
      while j < 255
        invariant 0 <= j <= 255
        invariant |frames| == j
        invariant forall jj :: 0 <= jj < j ==> frames[jj] == ShowWords(RainbowWords(jj))
        invariant j > 0 ==> ar[..] == RainbowWords(j - 1)
      {
        RainbowFrame(j);
        var frame := PixelsShow();
        frames := frames + [frame];
        j := j + 1;
      }
    }

    /** The inner loop of `rainbow_cycle`: every slot `i` takes the wheel colour of hue `i * 256 / 16 + j`. */
    method RainbowFrame(j: nat)
      requires Valid()
      modifies ar
      ensures ar[..] == RainbowWords(j)
    {
      var i := 0;
      while i < NUM_LEDS
        invariant 0 <= i <= NUM_LEDS
        invariant forall k :: 0 <= k < i ==> ar[k] == RainbowWords(j)[k]
      {
        var rcIndex := (i * 256 / NUM_LEDS) + j;
        var _ := PixelsSet(i, Wheel(rcIndex % 256));
        i := i + 1;
      }
    }

    /** `getNextColor`: advances the palette index, wrapping after the last entry. */
    method GetNextColor() returns (c: Rgb)
      requires Valid()
      modifies this`colorIndex
      ensures Valid()
      ensures colorIndex == NextIndex(old(colorIndex)) && c == COLORS[colorIndex]
    {
      colorIndex := colorIndex + 1;
      if colorIndex > NUMBER_OF_COLORS - 1 {
        colorIndex := 0;
      }
      c := COLORS[colorIndex];
    }
  }
}
