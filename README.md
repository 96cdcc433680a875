# LED clock and candle flicker — a Dafny model

This project models the logic of two MicroPython scripts for a Raspberry Pi Pico.

`clock.py` drives a 16-LED WS2812 ring as the seconds hand of a clock:

- `NeoPixelRing` keeps one packed GRB word per LED in `self.ar`. It dims every
  channel to a tenth only when it shows a frame.
- A PIO program (`ws2812`) turns each word into pulses on the data line.
- The main loop does four things:
  - it maps the second to a ring slot, running the ring backwards through the minute;
  - it steps a ten-colour palette when an iteration reads second 0;
  - when an iteration reads minute 0 and second 0 of an hour from 8 to 23, it runs a rainbow and strikes a chime;
  - it formats the date and time zero-padded for a display.

`Candle.py` drives a 16-LED strip as candles:

- Each slot has a flicker light with a countdown.
- An ember light always writes 40 % of (255, 60, 10) and re-arms to 20.
- A glow light draws a brightness band and a countdown from random 16-bit words.
- The loop lights the glow set when the measured distance is below 120 cm, and the ember set otherwise.

The model has five modules:

- `Colors` (`colors.dfy`): bytes and RGB triples.
- `Ws2812` (`ws2812.dfy`): the PIO program as a pure encoder.
  - Each word becomes a sequence of high/low phases with cycle counts.
  - A decoder reads the phases back.
  - Lemmas prove that decoding returns the words and that every bit lasts ten cycles.
- `NeoPixel` (`neopixel.dfy`): the `NeoPixelRing` class.
  - It has an `array<nat>` buffer and the palette index as a field.
  - Its methods loop as the source does, and each is proved against specification functions: `Pack`, `DimWord`, `Filled`, `Wheel`, `TickSlot`, `RainbowWords` and `NextIndex`.
- `ClockApp` (`clockapp.dfy`): the startup sequence and one iteration of the clock loop.
  - It covers the chime count and the `{:0>2}` padding.
  - It proves that padded numbers read back as the number.
- `Candle` (`candle.dfy`): the candle script.
  - `randint` and `c_brightness` are computed in exact integer arithmetic and proved equal to their real-number formulas.
  - The two light classes hold `time` and `pos` fields and write into an `array<Rgb>` strip.
  - The pure functions `UpdateStep` and `RoundOf` describe one update and one `lightCandles` round as values.
  - `LightGlowCandles`/`LightEmberCandles` loop over the list of distinct light objects and are proved to produce exactly `RoundOf`.

Randomness enters as a sequence of 16-bit words `rnd` and a cursor `at`. The word drawn is `int.from_bytes(uos.urandom(2), ...)`, and the methods return the cursor after the words they used.

## Model

| member | source | states |
|---|---|---|
| Ws2812.BitPhases | clock.py:14-20 | one bit is three phases (`out` low, `jmp` high, then high for a one or low for a zero); the last phase is high exactly for a one; the cycle counts are stated by `BitTiming` |
| Ws2812.OutBits | clock.py:9-16 | `out(x, 1)` with left shift taken n times yields n bits, their value given by `OutBitsValue` |
| Ws2812.WordBits | clock.py:9-16 | a word put shifted left by 8 gives 24 autopulled bits, which `WordBitsRoundTrip` reads back as the word |
| Ws2812.BitTiming | clock.py:11-20 | every bit lasts 10 cycles; a one is high 7 and low 3, a zero high 2 and low 8 |
| Ws2812.OutBitsValue | clock.py:9-16 | shifting n bits left out of the 32-bit OSR, MSB first, yields the top n bits of the register |
| Ws2812.WordBitsRoundTrip | clock.py:9-21 | the 24 bits autopull sends for a word put shifted left by 8 read back, MSB first, as the word |
| Ws2812.DecodeEncodeBits | clock.py:14-21 | a receiver that reads a bit period high for more than half of its ten cycles as a one recovers every bit in order |
| Ws2812.EncodeBitsCycles | clock.py:14-21 | a bit string of length n takes 10 * n cycles |
| Ws2812.EncodeBits | clock.py:14-21 | one `BitPhases` group per bit, in order; `DecodeEncodeBits` and `EncodeBitsCycles` state its content and duration |
| Ws2812.EncodeFrame | clock.py:65 | a frame is 72 phases per buffer word, in buffer order; `DecodeEncodeFrame` and `FrameCycles` state its content and duration |
| Ws2812.DecodeEncodeFrame | clock.py:65 | the waveform of a frame decodes to exactly the words of the buffer, in order |
| Ws2812.FrameCycles | clock.py:65 | a frame of n pixels lasts 240 * n cycles |
| Ws2812.Transmit | clock.py:65 | a put is the frame followed by one low latch phase, and the frame part decodes to the words |
| NeoPixel.UnpackPack | clock.py:61-69 | the word `pixels_set` stores unpacks in `pixels_show` to the same r, g and b |
| NeoPixel.Pack | clock.py:69 | the stored GRB word fits in 24 bits |
| NeoPixel.Dim | clock.py:61-63 | the shown channel is the truncated tenth: 10d <= c < 10d + 10, so d <= c |
| NeoPixel.DimWord | clock.py:60-64 | each channel of the word sent for a stored word is that channel dimmed |
| NeoPixel.ShowWords | clock.py:58-64 | the frame has one word per stored word, each its `DimWord` |
| NeoPixel.ShowAfterSet | clock.py:58-69 | showing a set colour gives each channel divided by 10, never more than the channel |
| NeoPixel.Slot | clock.py:69 | an index in -16..15 names a slot, negative indices counting from the end |
| NeoPixel.Filled | clock.py:71-73 | all sixteen slots hold the packed colour |
| NeoPixel.TopFilled | clock.py:75-79 | part-way through `clockTick`, the top `count` slots hold the colour and the rest keep their old words |
| NeoPixel.Wheel | clock.py:105-116 | black outside 0..255; inside, the channels sum to 255; positions 0 and 255 are red |
| NeoPixel.WheelContinuous | clock.py:105-116 | neighbouring wheel positions differ by at most 3 per channel and the wheel closes at 255/0 |
| NeoPixel.TickSlot | clock.py:93-97 | the integer form is the ceiling of (i / 59) * 16 - 1 and lies in -1..15 for i in 0..59 |
| NeoPixel.TickMonotone | clock.py:93-97 | a later second never lights an earlier slot |
| NeoPixel.TickCoversRing | clock.py:93-97 | every slot -1..15 is reached by some second in 0..59, and only second 0 reaches -1 |
| NeoPixel.TickEnds | clock.py:91-102 | i = 0 targets -1 and i = 59 targets 15, and both write slot 15 |
| NeoPixel.RainbowHue | clock.py:122-123 | the wheel position of slot i in frame j is in 0..255 and equals (16 i + j) mod 256 |
| NeoPixel.RainbowWords | clock.py:120-123 | the sixteen words of rainbow frame j, slot i holding the wheel colour at its hue; `RainbowNeverBlack` states that none is black |
| NeoPixel.RainbowNeverBlack | clock.py:119-123 | every slot of every rainbow frame holds a colour whose channels sum to 255, never black |
| NeoPixel.NextIndex | clock.py:127-133 | the palette step keeps the index in 0..9 and equals (k + 1) mod 10 |
| NeoPixel.NextIndexIterMod | clock.py:127-133 | n palette steps advance the index by n modulo the palette size |
| NeoPixel.PaletteCycle | clock.py:41-42 | ten palette steps return to the starting index |
| NeoPixel.FirstColorIsRed | clock.py:127-133 | the first step from index 0 yields RED |
| NeoPixel.PreviousPixel | clock.py:84 | for a slot in 0..15 the previous pixel is the next slot up, modulo 16 |
| NeoPixel.PreviousPixelIsPreviousStep | clock.py:82-84 | the chase's previous pixel is the slot visited one step earlier, wrapping 15 to 0 |
| NeoPixel.NeoPixelRing.constructor | clock.py:44-55 | a fresh 16-word buffer of zeros and palette index 0 |
| NeoPixel.NeoPixelRing.PixelsShow | clock.py:58-65 | the frame holds the dimmed word of every slot; the buffer is not modified |
| NeoPixel.NeoPixelRing.PixelsSet | clock.py:68-69 | for an index in -16..15 only that slot changes, to the packed colour; otherwise IndexError and nothing changes |
| NeoPixel.NeoPixelRing.PixelsFill | clock.py:71-73 | every slot holds the packed colour |
| NeoPixel.NeoPixelRing.ClockTick | clock.py:75-79 | sixteen frames; frame k shows the top k + 1 slots in the colour and the rest as before; the ring ends filled |
| NeoPixel.NeoPixelRing.Tick | clock.py:91-103 | for seconds 0..59 the write succeeds; exactly the tick slot changes and the frame shows the new buffer |
| NeoPixel.NeoPixelRing.RainbowFrame | clock.py:121-123 | slot i holds the wheel colour of position (i * 256 // 16 + j) & 255 |
| NeoPixel.RainbowShown | clock.py:119-124 | frame j of the cycle, for j = 0..254, is the shown rainbow j |
| NeoPixel.NeoPixelRing.RainbowCycle | clock.py:119-125 | 255 frames, frame j showing rainbow j, and the buffer ends as rainbow 254 |
| NeoPixel.NeoPixelRing.GetNextColor | clock.py:127-133 | the index takes one palette step, stays in range, and the colour returned is the palette entry |
| ClockApp.ReverseSecond | clock.py:317 | `abs(sec - 59)` is the distance from 59 |
| ClockApp.ReverseSecondSlots | clock.py:317-319 | every second lights a valid slot; the map is its own inverse on 0..59; seconds 0 and 59 both light slot 15 |
| ClockApp.ChimeTrigger | clock.py:322 | the chime condition: hours 8..23 at minute 0 and second 0; `TriggeredChimeCount` bounds the strikes it leads to |
| ClockApp.ChimeCount | clock.py:252-257 | for hours 0..24 at most 12 strikes; `ChimeCountIsDialHour` states it is the dial hour |
| ClockApp.ChimeCountIsDialHour | clock.py:252-257 | for hours 1..23 the number of strikes is the hour on a twelve-hour dial |
| ClockApp.TriggeredChimeCount | clock.py:322-324 | whenever the loop chimes it strikes between 1 and 12 times |
| ClockApp.HourlyChime | clock.py:252-259 | the loop strikes hour - 12 times after noon and hour times otherwise, and not at all for a negative count |
| ClockApp.DigitChar | clock.py:304 | the character for a digit is a decimal digit that reads back as that digit |
| ClockApp.NatToString | clock.py:304 | the decimal text of n is non-empty and has one digit exactly when n < 10 |
| ClockApp.IntToString | clock.py:304 | `str(n)` is non-empty and starts with '-' exactly for a negative number |
| ClockApp.ZeroPad2 | clock.py:304 | the number right-aligned in width two, the gap filled with '0' |
| ClockApp.ParseNatToString | clock.py:304 | the decimal text of n reads back as n |
| ClockApp.ZeroPad2RoundTrip | clock.py:304 | a padded field reads back as the number |
| ClockApp.ZeroPad2TwoDigits | clock.py:310 | numbers below 100 become exactly two digits, tens first |
| ClockApp.ShowDate | clock.py:304 | day, month and year each padded to width two, joined by '/' |
| ClockApp.ShowTime | clock.py:310 | hour, minute and second padded to width two, joined by ':'; its layout is stated by `ShowTimeLayout` |
| ClockApp.ShowTimeLayout | clock.py:310 | the time string is `hh:mm:ss`, two digits per field |
| ClockApp.Startup | clock.py:288-292 | after startup the ring is black, the palette index is 1 and the colour is RED |
| ClockApp.FillThenFirstColor | clock.py:290-292 | filling then stepping the palette leaves every slot filled and yields RED |
| ClockApp.LoopStep | clock.py:298-325 | one iteration: the display strings; a palette step exactly at second 0; the tick's frame showing the reversed second's slot written; outside a chime that buffer and no further frame; at a chime the strike count, the 255 rainbow frames and a black buffer |
| ClockApp.Ticked | clock.py:317-319 | the buffer after the loop's tick: the reversed second's tick slot holds the packed colour, every other slot as before; 16 words long |
| ClockApp.TickAndChime | clock.py:316-325 | the tick's frame shows the ticked buffer; without a chime the buffer stays ticked and no rainbow is shown; at a chime the rainbow frames are shown, the strike count is the dial hour and the buffer ends black |
| ClockApp.HourChime | clock.py:322-325 | the 255 rainbow frames, `ChimeCount(hour)` strikes, and a black buffer |
| ClockApp.ShownDark | clock.py:58-64 | a stored word is shown dark exactly when each of its channels is below 10 |
| ClockApp.ChimeLeavesRainbowShown | clock.py:322-325 | every slot of every rainbow frame handed over at a chime is lit, so the black buffer left by `pixels_fill` is never shown in that iteration |
| Candle.Truncate | Candle.py:72 | `int` rounds toward zero |
| Candle.TruncDiv | Candle.py:81 | integer division rounding toward zero; `TruncateQuotient` states that it is the truncated real quotient |
| Candle.TruncateQuotient | Candle.py:81 | truncating the exact quotient of two integers is the integer quotient toward zero |
| Candle.RandInt | Candle.py:80-81 | `randint(lo, hi)` lies in lo..hi |
| Candle.RandIntFormula | Candle.py:80-81 | `lo + int(v / 65536.0 * (hi - lo + 1))` over the reals; `RandIntMatchesFormula` states that the integer form equals it |
| Candle.RandIntMatchesFormula | Candle.py:80-81 | the integer form equals `lo + int(v / 65536.0 * (hi - lo + 1))` over the reals |
| Candle.RandIntEnds | Candle.py:80-81 | word 0 draws lo and word 0xFFFF draws hi |
| Candle.SelectorReachesHundred | Candle.py:137 | the selector `randint(0, 100)`, drawn here for the brightness and at Candle.py:156 for the duration, can be 100 |
| Candle.CBrightness | Candle.py:83-84 | `max(0, min(c * p / 100, 255))` lies in 0..255 and is 0 when the product is not positive |
| Candle.Channel | Candle.py:83-84 | for a byte and a percentage the channel is at most the byte; exactly the byte at 100; 0 at or below 0 |
| Candle.Clamped | Candle.py:84 | the clamped product is 0 when non-positive and the quotient by 100 up to 25500 |
| Candle.ChannelMatchesFloat | Candle.py:71-84 | the integer channel equals `int(max(0, min(c * p / 100, 255)))` over the reals |
| Candle.ChannelMonotone | Candle.py:83-84 | a higher percentage never gives a dimmer channel |
| Candle.Dimmed | Candle.py:102-103 | each channel is at most the base channel, and 100 % is the base colour |
| Candle.EmberShade | Candle.py:102-107 | brightness 40 of (255, 60, 10) is (102, 24, 4) |
| Candle.BrightnessBand | Candle.py:137-147 | the brightness band for a selector value lies within 30..100 |
| Candle.GlowBrightness | Candle.py:129-148 | the brightness lies in 30..100 and in the band the selector picks |
| Candle.DurationBand | Candle.py:156-164 | the countdown range for a selector value lies within 0..30: 20 below 90, then 20..30, 10..20 and 0..10 |
| Candle.GlowDuration | Candle.py:150-164 | the count lies in 0..30 and in the range the selector picks (20 below 90, then 20..30, 10..20, 0..10); one word is used exactly when the selector is below 90 |
| Candle.GlowDurationCanBeZero | Candle.py:150-164 | selector word 0xFFFF followed by word 0 gives a count of 0 |
| Candle.Fire | Candle.py:98-100 | firing writes only slot pos, re-arms to 0..30 and uses at most the words of one update |
| Candle.FireEmber | Candle.py:105-111 | an ember light fires (102, 24, 4) into its slot, re-arms to 20 and draws nothing |
| Candle.FireGlow | Candle.py:121-123 | a glow light fires a glow shade into its slot and draws three or four words |
| Candle.UpdateStep | Candle.py:96-100 | a count still positive after subtracting delta changes nothing else; otherwise the light fires; other slots never change |
| Candle.RoundOf | Candle.py:166-169 | a round keeps one count per light and the strip length, using at most four words per glow light |
| Candle.RoundExtend | Candle.py:168 | the unfolding step of `RoundOf` at a prefix of the list, which the loop proofs of `LightEmberCandles` and `LightGlowCandles` use: the round over i + 1 lights is the round over i followed by the update of light i |
| Candle.RoundTimes | Candle.py:166-169 | each light's count is old count - delta while positive, else re-armed to 0..30 |
| Candle.RoundWritesOnlyFiringSlots | Candle.py:166-169 | a slot no firing light owns keeps its colour |
| Candle.EmberRoundShades | Candle.py:166-169 | after an ember round every slot is old or (102, 24, 4), and a fired slot is (102, 24, 4) |
| Candle.GlowRoundShades | Candle.py:166-169 | after a glow round every slot is old or a glow shade, and a slot whose glow light fired holds a glow shade |
| Candle.LateClockFiresEveryLight | Candle.py:167-168 | with the absolute clock passed as delta, once it reads 30 ms every light fires every round |
| Candle.RoundKeepsCountBound | Candle.py:166-169 | counts of at most 30 stay at most 30 through a round with non-negative delta |
| Candle.EmberLight.constructor | Candle.py:92-94 | count 0 at the given slot |
| Candle.EmberLight.SetBrightness | Candle.py:102-103 | only slot pos changes, to the dimmed ember base colour |
| Candle.EmberLight.Mode | Candle.py:105-107 | only slot pos changes, to (102, 24, 4) |
| Candle.EmberLight.Duration | Candle.py:109-111 | the count becomes 20 |
| Candle.EmberLight.Update | Candle.py:96-100 | the new count and strip are those of `UpdateStep` for the old count |
| Candle.GlowLight.constructor | Candle.py:115-117 | count 0 at the given slot |
| Candle.GlowLight.SetBrightness | Candle.py:125-126 | only slot pos changes, to the module base colour (255, 120, 10) dimmed |
| Candle.GlowLight.RandomMode | Candle.py:129-148 | two words drawn; only slot pos changes, to the base colour at the drawn brightness |
| Candle.GlowLight.RandomDuration | Candle.py:150-164 | the count and the words used are those of `GlowDuration` |
| Candle.GlowLight.Update | Candle.py:119-123 | the new count, strip and cursor are those of `UpdateStep` for the old count |
| Candle.MakeEmberCandles | Candle.py:175 | sixteen fresh, distinct ember lights, light j at slot j with count 0 |
| Candle.MakeGlowCandles | Candle.py:174 | sixteen fresh, distinct glow lights, light j at slot j with count 0 |
| Candle.UpdateEmberAt | Candle.py:168 | updating light i of distinct ember lights extends the round by one and leaves the other lights' counts |
| Candle.UpdateGlowAt | Candle.py:168 | updating light i of distinct glow lights extends the round by one and leaves the other lights' counts |
| Candle.LightEmberCandles | Candle.py:166-169 | the strip and every light's count end as the ember `RoundOf` of the starting states |
| Candle.LightGlowCandles | Candle.py:166-169 | the strip, every count and the cursor end as the glow `RoundOf` of the starting states |
| Candle.CandleLoopStep | Candle.py:185-188 | below 120 cm the glow round runs and the ember lights keep their counts; otherwise the reverse |

## Left out

- star.py is not part of this model. It only writes PWM duty values and sleeps.
- The hardware classes are not modelled: the DS1302 clock, the OLED display, the button, the distance sensor and the servo. This includes the servo's angle-to-duty mapping and its sweeps. The date, time and distance are parameters of `LoopStep` and `CandleLoopStep`.
- `sm.put`, `np.write`/`show()`, `time.sleep*`, `print` and the `while True` loops are not modelled. A frame is returned as the sequence of words handed to the hardware, and one loop iteration is modelled. `LoopStep` returns the tick's frame and the rainbow frames; `pixels_fill(BLACK)` at clock.py:325 is not followed by a show in that iteration.
- Pulse timing at 8 MHz is not modelled; the PIO model counts state-machine cycles. The FIFO and the stall while it refills are reduced to one trailing low phase in `Transmit`.
- `uos.urandom` is replaced by the caller-supplied word sequence. Glow methods require enough words: four per glow light in a round.
- `color_chase` uses the unbound name `NUM_LEDS` at clock.py:83, so its first call raises NameError. Only its previous-pixel rule is modelled (`PreviousPixel`).
- `ServoMotor.__init__` calls `machine.PWM` at clock.py:204, but clock.py:1 imports only `Pin` and `I2C` from `machine`. Unless `machine` is already bound in the interpreter, `ServoMotor()` at clock.py:286 raises NameError before the loop. `LoopStep` models the loop as if the servo had been created.
- Python integers and floats are modelled exactly. MicroPython on these boards computes in single precision (binary32), and the rounding cannot change any result:
  - `int(c * 0.1)` is `c / 10` for bytes. The single-precision 0.1 is slightly above one tenth, and no byte product reaches the next integer.
  - The `tick` ceiling is computed exactly. 59 is prime, so `16 * i / 59` is an integer only at i = 0 and i = 59. Elsewhere it is at least 1/59 from an integer.
  - The `randint` product `v / 65536.0 * n` is exact in single precision, because `v * n < 2^23` for these ranges.
  - `c_brightness`'s `c * p / 100`, with `c * p <= 25500`, is an exact integer or at least 0.01 from one, so `int` gives `c * p` divided by 100.
  - These are arguments about IEEE binary32 arithmetic, not proofs.
- `& 255` and `& 0xFF` are modelled as `% 256`, which agrees for non-negative values.
- The 32-bit bound of the `array('I')` buffer is not enforced. Stored words are packed bytes below 2^24.
- The list methods require the lights in a list to be distinct objects, which `MakeEmberCandles`/`MakeGlowCandles` ensure.
- `DecodeFrame` does not read a trailing partial pixel of fewer than 72 phases. No encoded frame has one.
- Pack: its own contract states only the 24-bit bound. The colour it stores is stated by `UnpackPack` and `ShowAfterSet`.
- RandInt: states the range only for lo <= hi. For lo > hi the source formula still runs, and the model computes it with truncation toward zero.

## Notes on what the code does

- `rainbow_cycle` runs `range(255)`, so it shows 255 frames, j = 0..254 (clock.py:119). The ring keeps showing frame 254 through the chime, and the black buffer from clock.py:325 is first shown by the next second's tick (`ChimeLeavesRainbowShown`).
- The selector `randint(0, 100)` ranges over 0..100 (`SelectorReachesHundred`). The percentages in the comments at Candle.py:131-135 and Candle.py:152-155 each add up to 100, as they would over 0..99. Over 0..100 the last band of each table covers one more value.
- A glow countdown may be re-armed to 0 (`GlowDurationCanBeZero`).
- The palette step and the chime fire only in an iteration that reads exactly second 0 (clock.py:314, clock.py:322). An iteration lasts more than a second: `time.sleep(1)` at clock.py:329, `time.sleep_ms(10)` in every `pixels_show` at clock.py:66, and the clock and display calls. The second read therefore drifts and now and then skips one. A skip from 59 to 1 loses that minute's palette step, and at minute 0 of hours 8..23 also that hour's rainbow and chime. A skipped second can also leave its ring slot unpainted for that minute. `LoopStep` models one iteration for the time it reads, so none of this is a property of the model.
- `lightCandles` passes the absolute `ticks_ms()` value to `update` as its `delta` (Candle.py:167-168); see `LateClockFiresEveryLight`.
