/**
 * The decision rules of the clock script's main loop: which slot the second
 * lights, when the palette advances, when and how often the chime sounds, and
 * how the date and time are zero-padded for the display. One loop iteration
 * is modelled; the real-time clock, display, servo and sleeps are left out.
 */
module ClockApp {
  import opened Colors
  import opened NeoPixel

  /** `abs(sec - 59)`: the second handed to `tick`, so the ring runs backwards through the minute. */
  function ReverseSecond(sec: int): (r: nat)
    ensures r == sec - 59 || r == 59 - sec
  {
    if sec - 59 < 0 then 59 - sec else sec - 59
  }

  /**
   * Every second of a minute lights a slot of the ring (no IndexError), the
   * mapping is its own inverse on 0..59, and seconds 0 and 59 both light slot 15.
   */
  lemma ReverseSecondSlots(sec: int)
    requires 0 <= sec <= 59
    ensures 0 <= ReverseSecond(sec) <= 59 && ReverseSecond(ReverseSecond(sec)) == sec
    ensures InRange(TickSlot(ReverseSecond(sec)))
    ensures sec == 0 || sec == 59 ==> Slot(TickSlot(ReverseSecond(sec))) == NUM_LEDS - 1
  {
    TickEnds();
  }

  /** The chime condition of the loop: active hours 8..23, at minute 0 and second 0. */
  predicate ChimeTrigger(hour: int, minute: int, sec: int)
  {
    (hour > 7 && hour <= 23) && (minute == 0 && sec == 0)
  }

  /** How many times `hourlyChime(hour)` calls `chime`: `range` of a count below one is empty. */
  function ChimeCount(hour: int): (n: nat)
    ensures 0 <= hour <= 24 ==> n <= 12
  {
    var h := if hour > 12 then hour - 12 else hour;
    if h < 0 then 0 else h
  }

  /** The hour as shown on a twelve-hour dial. */
  function DialHour(hour: int): int
  {
    if hour % 12 == 0 then 12 else hour % 12
  }

  /** For every hour of the day except midnight the chime strikes the dial hour. */
  lemma ChimeCountIsDialHour(hour: int)
    requires 1 <= hour <= 23
    ensures ChimeCount(hour) == DialHour(hour)
  {
  }

  /** Whenever the loop chimes, it strikes between 1 and 12 times. */
  lemma TriggeredChimeCount(hour: int, minute: int, sec: int)
    requires ChimeTrigger(hour, minute, sec)
    ensures 1 <= ChimeCount(hour) <= 12
  {
  }

  /** `hourlyChime(hour)`: converts to the twelve-hour clock and strikes once per hour; returns the strikes. */
  method HourlyChime(hour: int) returns (dongs: nat)
    ensures dongs == ChimeCount(hour)
  {
    var h := hour;
    if h > 12 {
      h := h - 12;
    }
    dongs := 0;
    var x := 0;
    while x < h
      invariant x == dongs
      invariant h >= 0 ==> x <= h
      invariant h < 0 ==> x == 0
    {
      dongs := dongs + 1;
      x := x + 1;
    }
  }

  function DigitChar(d: nat): (ch: char)
    requires d < 10
    ensures '0' <= ch <= '9' && DigitValue(ch) == d
  {
    "0123456789"[d]
  }

  function DigitValue(ch: char): nat
  {
    if '0' <= ch <= '9' then ch as int - '0' as int else 0
  }

  /** `str(n)` for a natural number. */
  function NatToString(n: nat): (s: string)
    ensures 1 <= |s|
    ensures n < 10 <==> |s| == 1
    ensures forall k :: 0 <= k < |s| ==> '0' <= s[k] <= '9'
    decreases n
  {
    if n < 10 then [DigitChar(n)] else NatToString(n / 10) + [DigitChar(n % 10)]
  }

  /** `str(n)`. */
  function IntToString(n: int): (s: string)
    ensures 1 <= |s| && (s[0] == '-' <==> n < 0)
  {
    if n < 0 then "-" + NatToString(-n) else NatToString(n)
  }

  /** `"{:0>2}".format(n)`: right-aligned in a field of width two, the gap filled with '0'. */
  function ZeroPad2(n: int): (s: string)
    ensures |s| == if |IntToString(n)| < 2 then 2 else |IntToString(n)|
    ensures s[|s| - |IntToString(n)|..] == IntToString(n)
    ensures forall k :: 0 <= k < |s| - |IntToString(n)| ==> s[k] == '0'
  {
    var t := IntToString(n);
    if |t| < 2 then seq(2 - |t|, _ => '0') + t else t
  }

  /** A decimal reading of a digit string, as a reader of the display would do it. */
  function ParseDecimal(s: string): nat
  {
    if s == [] then 0 else 10 * ParseDecimal(s[..|s| - 1]) + DigitValue(s[|s| - 1])
  }

  lemma {:induction false} ParseNatToString(n: nat)
    ensures ParseDecimal(NatToString(n)) == n
    decreases n
  {
    var s := NatToString(n);
    if n < 10 {
      assert s[..0] == [];
    } else {
      assert s[..|s| - 1] == NatToString(n / 10);
      ParseNatToString(n / 10);
    }
  }

  lemma {:induction false} ParseLeadingZero(s: string)
    ensures ParseDecimal("0" + s) == ParseDecimal(s)
    decreases |s|
  {
    if s == [] {
      assert ("0" + s)[..0] == [];
    } else {
      assert ("0" + s)[..|s|] == "0" + s[..|s| - 1];
      ParseLeadingZero(s[..|s| - 1]);
    }
  }

  /** The padded field still reads back as the number. */
  lemma ZeroPad2RoundTrip(n: nat)
    ensures ParseDecimal(ZeroPad2(n)) == n
  {
    ParseNatToString(n);
    if n < 10 {
      assert ZeroPad2(n) == "0" + NatToString(n);
      ParseLeadingZero(NatToString(n));
    }
  }

  /** Values below 100 become exactly two digits, tens first. */
  lemma ZeroPad2TwoDigits(n: int)
    requires 0 <= n < 100
    ensures ZeroPad2(n) == [DigitChar(n / 10), DigitChar(n % 10)]
  {
    if n >= 10 {
      assert NatToString(n / 10) == [DigitChar(n / 10)];
    }
  }

  /** `showTime` of the loop. */
  function ShowTime(hour: int, minute: int, sec: int): string
  {
    ZeroPad2(hour) + ":" + ZeroPad2(minute) + ":" + ZeroPad2(sec)
  }

  /** `showDate` of the loop: day, month, then the year, which keeps all its digits. */
  function ShowDate(day: int, month: int, year: int): string
  {
    ZeroPad2(day) + "/" + ZeroPad2(month) + "/" + ZeroPad2(year)
  }

  /** A time of day is always shown as `hh:mm:ss`: two decimal digits per field, tens first. */
  lemma ShowTimeLayout(hour: int, minute: int, sec: int)
    requires 0 <= hour < 100 && 0 <= minute < 100 && 0 <= sec < 100
    ensures ShowTime(hour, minute, sec) == [DigitChar(hour / 10), DigitChar(hour % 10), ':',
      DigitChar(minute / 10), DigitChar(minute % 10), ':', DigitChar(sec / 10), DigitChar(sec % 10)]
  {
    ZeroPad2TwoDigits(hour);
    ZeroPad2TwoDigits(minute);
    ZeroPad2TwoDigits(sec);
    JoinPairs(ZeroPad2(hour), ':', ZeroPad2(minute), ZeroPad2(sec));
  }

  /** Three two-character fields joined by a separator character. */
  lemma JoinPairs(a: string, sep: char, b: string, c: string)
    requires |a| == 2 && |b| == 2 && |c| == 2
    ensures a + [sep] + b + [sep] + c == [a[0], a[1], sep, b[0], b[1], sep, c[0], c[1]]
  {
  }

  /** The set-up before the loop: a fresh ring, cleared to black, and the first palette colour. */
  method Startup() returns (ring: NeoPixelRing, color: Rgb)
    ensures fresh(ring) && fresh(ring.ar) && ring.Valid()
    ensures ring.ar[..] == Filled(BLACK) && ring.colorIndex == 1 && color == RED
  {
    ring := new NeoPixelRing();
    color := FillThenFirstColor(ring, BLACK);
  }

  /**
   * The two calls `Startup` makes on the new ring, for any fill colour: every
   * slot holds that colour and the palette has moved to its second entry.
   */
  method FillThenFirstColor(ring: NeoPixelRing, fill: Rgb) returns (color: Rgb)
    requires ring.Valid() && ring.colorIndex == 0
    modifies ring, ring.ar
    ensures ring.Valid() && ring.ar[..] == Filled(fill) && ring.colorIndex == 1 && color == RED
  {
    ring.PixelsFill(fill);
    color := ring.GetNextColor();
  }

  /**
   * One iteration of the clock loop for the date and time read from the clock:
   * the display strings, a new palette colour at second 0, then the second's
   * slot and, at the top of an active hour, the rainbow, the chime and a black
   * ring. The frames handed to the LEDs are the tick's `frame`, then the
   * `rainbow` frames (none outside a chime).
   */
  method LoopStep(ring: NeoPixelRing, color: Rgb, year: int, month: int, day: int, hour: int, minute: int, sec: int)
    returns (showDate: string, showTime: string, next: Rgb, dongs: nat, frame: seq<nat>, rainbow: seq<seq<nat>>)
    requires ring.Valid() && 0 <= sec <= 59
    modifies ring, ring.ar
    ensures ring.Valid()
    ensures showDate == ShowDate(day, month, year) && showTime == ShowTime(hour, minute, sec)
    ensures sec == 0 ==> ring.colorIndex == NextIndex(old(ring.colorIndex)) && next == COLORS[ring.colorIndex]
    ensures sec != 0 ==> ring.colorIndex == old(ring.colorIndex) && next == color
    ensures dongs == if ChimeTrigger(hour, minute, sec) then ChimeCount(hour) else 0
    ensures frame == ShowWords(Ticked(old(ring.ar[..]), next, sec))
    ensures !ChimeTrigger(hour, minute, sec) ==> ring.ar[..] == Ticked(old(ring.ar[..]), next, sec) && rainbow == []
    ensures ChimeTrigger(hour, minute, sec) ==> ring.ar[..] == Filled(BLACK) && RainbowShown(rainbow)
  {
    showDate := ShowDate(day, month, year);
    showTime := ShowTime(hour, minute, sec);
    next := color;
    if sec == 0 {
      next := ring.GetNextColor();
    }
    dongs, frame, rainbow := TickAndChime(ring, next, hour, minute, sec);
  }

  /** The buffer after the second's tick: the slot of the reversed second holds the colour. */
  function Ticked(ws: seq<nat>, color: Rgb, sec: int): (t: seq<nat>)
    requires |ws| == NUM_LEDS && 0 <= sec <= 59
    ensures |t| == NUM_LEDS && 0 <= Slot(TickSlot(ReverseSecond(sec))) < NUM_LEDS
    ensures t[Slot(TickSlot(ReverseSecond(sec)))] == Pack(color)
    ensures forall k :: 0 <= k < NUM_LEDS && k != Slot(TickSlot(ReverseSecond(sec))) ==> t[k] == ws[k]
  {
    ws[Slot(TickSlot(ReverseSecond(sec))) := Pack(color)]
  }

  /**
   * The LED half of the loop body: the tick, then at the top of an active hour
   * the rainbow, the chime and the ring cleared to black. The clearing is not
   * followed by a show, so at a chime the last frame handed to the LEDs is
   * rainbow 254 although the buffer is black.
   */
  method TickAndChime(ring: NeoPixelRing, next: Rgb, hour: int, minute: int, sec: int)
    returns (dongs: nat, frame: seq<nat>, rainbow: seq<seq<nat>>)
    requires ring.Valid() && 0 <= sec <= 59
    modifies ring.ar
    ensures dongs == if ChimeTrigger(hour, minute, sec) then ChimeCount(hour) else 0
    ensures frame == ShowWords(Ticked(old(ring.ar[..]), next, sec))
    ensures !ChimeTrigger(hour, minute, sec) ==> ring.ar[..] == Ticked(old(ring.ar[..]), next, sec) && rainbow == []
    ensures ChimeTrigger(hour, minute, sec) ==> ring.ar[..] == Filled(BLACK) && RainbowShown(rainbow)
  {
    var reverseSecond := ReverseSecond(sec);
    var _, shownTick := ring.Tick(next, reverseSecond);
    frame := shownTick;
    rainbow := [];
    dongs := 0;
    if ChimeTrigger(hour, minute, sec) {
      rainbow, dongs := HourChime(ring, hour);
    }
  }

  /**
   * After a chime the buffer is black, but nothing shows it: the last frame
   * handed to the LEDs is rainbow frame 254, and every slot of every rainbow
   * frame is lit, where a shown black word is dark (`ShownDark`).
   */
  lemma ChimeLeavesRainbowShown(rainbow: seq<seq<nat>>, j: nat, i: nat)
    requires RainbowShown(rainbow) && j < 255 && i < NUM_LEDS
    ensures |rainbow[j]| == NUM_LEDS && rainbow[j][i] != 0
  {
    RainbowNeverBlack(j, i);
    ShownDark(RainbowWords(j)[i]);
    assert rainbow[j][i] == DimWord(RainbowWords(j)[i]);
  }

  /** A stored word is shown dark exactly when each of its channels is below 10, as black's are. */
  lemma ShownDark(w: nat)
    ensures DimWord(w) == 0 <==> RedOf(w) < 10 && GreenOf(w) < 10 && BlueOf(w) < 10
  {
  }

  /** The hourly branch without the tick: the rainbow, the chime, then the ring cleared to black. */
  method HourChime(ring: NeoPixelRing, hour: int) returns (frames: seq<seq<nat>>, dongs: nat)
    requires ring.Valid()
    modifies ring.ar
    ensures ring.ar[..] == Filled(BLACK)
    ensures dongs == ChimeCount(hour)
    ensures RainbowShown(frames)
  {
    frames := ring.RainbowCycle();
    dongs := HourlyChime(hour);
    ring.PixelsFill(BLACK);
  }
}
