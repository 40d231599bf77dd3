# Two-zone LED light controller: a verified model

This project models the logic of a small Raspberry Pi light fixture. The fixture has
one SK6812 strip of 299 pixels split into two zones and three push-buttons. A short
press on a zone button steps that zone through two brightness stages. A long press
turns the zone off. A long press on the third button runs a shutdown animation and
powers the machine down.

The model has three parts, one Dafny module per source file, plus a helper module:

- `GpioEvent` (`gpio_event.dfy`): the button classifier. It is a record
  `Button(pin, longPress, state, calltime)` with four classification values
  LOW / HIGH / SHORT / LONG. The datatype admits no fifth value. `OnEvent` is the
  edge callback: level 0 is a falling edge, level 1 a rising edge, and any other
  level is the watchdog. `State` is the
  read-and-clear poll, returning `(reading, button')`. Ticks are unbounded integers.
  A recorded press time of 0 means "no press", exactly as the code's truthiness test
  does, so a falling edge at tick 0 is forgotten (`PressAtTickZeroForgotten`).
- `LedAnimations` (`led_animations.dfy`): `setColor`, `showColor` and `colorWipe` as
  functions on a strip `seq<C>`. The colour type `C` is a parameter. The output is a
  trace of `Show(frame)` flushes of the whole buffer and `Sleep(ms)` pause markers.
  An empty range means the whole strip. Any direction other than `"up"` walks the
  range reversed.
- `Light` (`light.dfy`): the zone tables as explicit sequences, one loop iteration
  as a pure `Step` and `Tick`, the start-up (`Boot`) and shutdown sequences, and
  `Execute`, which runs any interleaving of GPIO callbacks and loop passes.
- `Ranges` (`ranges.dfy`): Python's `range`, `reversed` and `s[k:]` as plain sequences.

Where the code's behaviour may be unexpected, the model follows the code:

- An empty range makes `setColor`/`showColor`/`colorWipe` act on the whole strip.
- At counter 0, a SHORT on button 2 lights only the second zone without its first 60
  pixels. The first 60 pixels are set to off.
- Nothing checks the zone indices against the strip length. See the Findings section.
- The recorded press time is an integer, and 0 stands for "no press recorded".

## Model

| member | source | states |
|---|---|---|
| GpioEvent.Create | gpio_event.py:31-38 | a new button has threshold = milliseconds × 1000 ticks, starts LOW with no press time, and is consistent |
| GpioEvent.OnEvent | gpio_event.py:46-63 | other pins change nothing; falling edge gives HIGH with the tick recorded; rising edge gives LONG iff a press is recorded and held strictly longer than the threshold, SHORT iff recorded and held at most the threshold, LOW iff none recorded; every non-falling event clears the press time; other levels give LOW |
| GpioEvent.Classify | gpio_event.py:53-59 | a release is LOW iff no press time is recorded, LONG iff one is and the hold is strictly longer than the threshold, SHORT iff one is and the hold is at most the threshold |
| GpioEvent.State | gpio_event.py:65-72 | returns the current classification; afterwards the state is never SHORT or LONG (these become LOW); LOW and HIGH are returned with the button unchanged |
| GpioEvent.ReadClears | gpio_event.py:65-72 | a SHORT or LONG is delivered once and the immediately following read returns LOW; reading LOW or HIGH is repeatable |
| GpioEvent.PressRelease | gpio_event.py:49-60 | a falling edge followed by a rising edge classifies the press by its duration against the threshold, whatever came before, and clears the press time |
| GpioEvent.ShortIffWithinThreshold | gpio_event.py:54-57 | with a non-zero press tick: SHORT iff held ≤ threshold, LONG iff held > threshold (a hold of exactly the threshold is SHORT) |
| GpioEvent.DefaultThresholdHolds | gpio_event.py:31-57 | default threshold is 1 500 000 ticks; holds of 1.2 s and exactly 1.5 s are SHORT, 1.8 s is LONG |
| GpioEvent.PressAtTickZeroForgotten | gpio_event.py:54-59 | a press whose falling edge carries tick 0 releases as LOW |
| GpioEvent.WatchdogCancelsPress | gpio_event.py:61-63 | a watchdog event between press and release cancels the press: the release reads LOW |
| GpioEvent.SecondPressOverwritesFirst | gpio_event.py:49-60 | two complete presses before a poll leave only the second classification |
| GpioEvent.RunKeepsConsistent | gpio_event.py:46-63 | across any callback sequence a press time is kept only while the state is HIGH |
| GpioEvent.RunKeepsConfig | gpio_event.py:46-63 | no callback changes the pin or the threshold |
| GpioEvent.RunIgnoresOtherPins | gpio_event.py:47 | a callback sequence has the same effect as its sub-sequence of events on the button's own pin |
| LedAnimations.Targets | led_animations.py:26-31 | an empty range stands for 0 .. numPixels-1 in order, any other range for itself; membership agrees with `Hits` |
| LedAnimations.Paint | led_animations.py:30-31 | writing a colour at each listed index gives the colour exactly at the listed pixels and the old value elsewhere |
| LedAnimations.SetColor | led_animations.py:24-31 | every selected pixel (all pixels for an empty range) gets the colour, every other pixel is unchanged, and no flush happens |
| LedAnimations.SetColorOverwrites | light.py:150-152 | setting a range twice gives the buffer of the second setting alone, so the off write before stage 2 on the same zone leaves no trace |
| LedAnimations.ShowColor | led_animations.py:34-42 | the buffer is the one `SetColor` gives (selected pixels coloured, all others kept), followed by exactly one flush of that buffer and nothing else |
| LedAnimations.Visit | led_animations.py:47-65 | the wipe visits the selected pixels as listed for "up", reversed for any other direction, and visits exactly the selected pixels |
| LedAnimations.Wipe | led_animations.py:60-63 | one frame and one pause per visited index; frame k holds the first k+1 visited pixels painted; the final buffer has all visited pixels painted |
| LedAnimations.ColorWipe | led_animations.py:45-68 | 2 × (range length, or numPixels if empty) outputs alternating frame/pause; frame k shows the first k+1 visited pixels in the colour; the final buffer equals `SetColor` in either direction |
| LedAnimations.WipeFrame | led_animations.py:60-68 | the k-th frame has exactly the first k+1 visited pixels in the new colour and all others as before |
| Ranges.Range | light.py:58-66 | `list(range(start, stop, step))`: element k is start + k·step, all strictly before stop, and one more step would reach or pass stop |
| Ranges.UptoContents | led_animations.py:27 | `range(n)` is 0 .. n-1 in order and contains exactly those integers |
| Ranges.Reversed | led_animations.py:54-65 | `reversed(s)` has the length of `s` and holds its elements last first |
| Ranges.Drop | light.py:160 | `s[k:]` is empty when k reaches the end, otherwise it holds the elements of `s` from position k on, so `ZONE_02[60:]` is zone 2 without its first 60 indices |
| Ranges.RangeDistinct | light.py:63-66 | a range never repeats an index |
| Light.ZoneContents | light.py:58-66 | zone 1 is 0..175 ascending (176 indices); zone 2 as written is 299 down to 178 (122 indices); corrected it is 298 down to 178 (121) |
| Light.ZoneMembers | light.py:58-66 | zone 1 selects 0..175, zone 2 selects 178..298 (178..299 as written), so pixels 176 and 177 are in neither zone |
| Light.AsWrittenOverruns | light.py:45-66 | the second zone as written begins at index 299 = LED_COUNT, so the zone tables do not fit the strip |
| Light.AsWrittenFitsWider | light.py:45-66 | on a strip of 300 or more pixels the tables as written fit and are separated, so the step lemmas cover them |
| Light.CorrectedFits | light.py:58-66 | with zone 2 starting at 298, every zone index addresses a pixel; the zones are disjoint, zone 1 is non-empty, zone 2 has more than 60 indices, none repeated |
| Light.ZoneStep | light.py:142-164 | LONG: counter kept, the zone off, everything else kept, one flush; SHORT at 0: counter 1, stage-1 pixels at stage 1, rest of zone off, one flush; SHORT at 1: counter 0, zone at stage 2, one flush; otherwise nothing changes and nothing is shown |
| Light.WipeWhole | led_animations.py:47-57 | a whole-strip wipe leaves every pixel in the colour after 2 × numPixels outputs |
| Light.Shutdown | light.py:83-88 | the four shutdown wipes leave every pixel off after 8 × numPixels outputs |
| Light.Step | light.py:138-164 | halted iff the shutdown reading is LONG, in which case the counters are kept and the strip ends dark; otherwise pixels outside both zones are unchanged |
| Light.StepIdle | light.py:142-164 | LOW or HIGH zone readings with no shutdown leave counters and buffer unchanged and show nothing |
| Light.StepCounters | light.py:130-164 | each counter in {0,1} flips on SHORT and holds otherwise; one flush per zone button reading SHORT or LONG, none otherwise |
| Light.ShutdownIgnoresZones | light.py:139-140 | with the shutdown button LONG the step does not depend on the zone readings and halts |
| Light.ZonesIndependent | light.py:142-164 | on zone-1 pixels the step does what button 1 alone does, and on zone-2 pixels what button 2 alone does |
| Light.ZoneLong | light.py:143-156 | a LONG on one zone button turns exactly that zone off, keeps both counters and flushes once, whether the shutdown button reads LOW, HIGH or SHORT |
| Light.Zone1Short | light.py:145-152 | a SHORT on button 1 puts every zone-1 pixel at stage 1 from counter 0, at stage 2 from counter 1, whatever button 2 reads and whether the shutdown button reads LOW, HIGH or SHORT |
| Light.Zone2Short | light.py:157-164 | a SHORT on button 2 at counter 0 leaves zone-2 positions 0..59 off and positions 60.. at stage 1; at counter 1 every zone-2 pixel is at stage 2; this holds whatever button 1 reads and whether the shutdown button reads LOW, HIGH or SHORT |
| Light.Boot | light.py:114-131 | start-up configures the three buttons (thresholds 1500, 1500, 3000 ms), leaves the strip dark, the counters at 0, and establishes the loop invariant |
| Light.Tick | light.py:133-164 | a pass reads all three buttons before acting: the step runs on the pre-read classifications; each button's SHORT or LONG becomes LOW while LOW and HIGH, pin, threshold and press time are kept; a halted program does nothing |
| Light.ShutdownSwallowsZonePress | light.py:134-140 | a zone SHORT read in the same pass as a shutdown LONG is consumed without effect |
| Light.Deliver | gpio_event.py:46-63 | the button whose pin the callback names goes through the edge callback; a callback never touches the counters, the buffer or the halted flag; buttons on other pins are unchanged; no button changes pin or threshold, and consistent buttons stay consistent |
| Light.ActionKeepsInvariant | light.py:130-164 | a single callback or loop pass keeps the loop invariant |
| Light.Execute | light.py:133-164 | under any interleaving of callbacks and passes, counters stay in {0,1}, the buffer keeps LED_COUNT pixels, the buttons keep their configuration and stay consistent |

## Left out

- Restarting the pigpio daemon and the `sudo shutdown -h now` command (light.py:89, 104-106) are process I/O. Shutdown is represented by the `halted` flag only.
- The signal handler and its off-wipe (light.py:78-80, 108-109), and `sys.exit`, are process control and are not modelled.
- Hardware set-up is foreign library calls and is not modelled: pin mode, pull-up and callback registration (gpio_event.py:40-42), and creating and starting the strip driver (light.py:112, 119-123).
- The watchdog period `time_long_press/1000*4` (gpio_event.py:43) is float arithmetic passed to the library. Watchdog expiries are modelled as events whose level is neither 0 nor 1.
- `time.sleep(wait_ms/1000.0)` is float timing. Each pause is recorded as a `Sleep(wait_ms)` marker.
- The `neopixel.Color` channel packing (light.py:68-72) is not modelled. Colours are five distinct constants, and the animations are generic in the colour type.
- The strip-driver constants (light.py:46-52) only configure the foreign driver.
- `None` as a range argument is represented by the empty sequence, which the code treats identically (led_animations.py:26, 36, 47).
- Strip writes at an index outside `0 .. numPixels-1` go to the strip driver, which is not part of this model. Every range argument must therefore address existing pixels (`InStrip`, `Fits`).
- The callback thread runs concurrently with the polling loop. Here callbacks and loop passes are interleaved one at a time (`Execute`).
- pigpio's 32-bit tick wrap-around is not handled by the code. Ticks are unbounded integers.
- Light.Shutdown: states the final dark buffer and the number of outputs. The individual frames are described by `ColorWipe`, not restated here.
- Light.Step: its own contract covers shutdown and the pixels outside both zones. The per-zone behaviour is stated by `ZoneStep` and the lemmas `StepIdle`, `StepCounters`, `ZonesIndependent`, `ZoneLong`, `Zone1Short` and `Zone2Short`.

## Findings

| source | as written | input that shows it | evidently intended | confidence | as-written member | corrected member |
|---|---|---|---|---|---|---|
| light.py:45-66 | the second zone table runs from index 299 down to 178, but the strip has LED_COUNT = 299 pixels, numbered 0..298 | any SHORT or LONG on button 2 writes pixel 299 of a 299-pixel strip | the second zone starting at the strip's last pixel, 298 | medium; not executed | Light.Zone02AsWritten (with Light.AsWrittenOverruns) | Light.Zone02 (with Light.CorrectedFits) |

The running model (`Boot`, `Invariant`, `Execute` over `Corrected()`) uses the
corrected table. The step lemmas are stated for every layout that fits the strip and
is `Separated`. On a strip of 300 or more pixels the table as written is such a
layout (`AsWrittenFitsWider`), so they apply to it too. In that case the dark head of zone 2 is 299..240 and stage 1 lights
239..178. With the corrected table these are 298..239 and 238..178.
